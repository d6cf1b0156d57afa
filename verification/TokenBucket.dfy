/** A token bucket evaluated as one atomic script over a stored hash with an expiry.
    Tokens are exact reals; times are whole milliseconds. */
module TokenBucket {
  import opened Events
  import opened Arithmetic

  datatype Limits = Limits(capacity: int, refillPerSecond: real) {
    predicate Valid() { capacity > 0 && refillPerSecond > 0.0 }
  }

  /** The stored hash, and when the store drops it. */
  datatype Bucket = Bucket(tokens: real, updatedMs: int, expiresMs: int)

  datatype Decision = Decision(allowed: bool, remainingTokens: int, retryAfterSeconds: int)

  datatype Outcome = Decided(decision: Decision) | IllegalArgument

  /** Whether the script's reply arrived, and whether it ran if not. */
  datatype Store = Replies | Silent(ran: bool)

  function Ceil(x: real): int { -((-x).Floor) }

  /** Refill for the time elapsed, clamped at capacity; an absent bucket is full, and a
      clock that went backwards mints nothing. */
  function Refilled(l: Limits, stored: Option<Bucket>, nowMs: int): real {
    match stored
    case None => l.capacity as real
    case Some(b) =>
      MinReal(l.capacity as real, b.tokens + Max(0, nowMs - b.updatedMs) as real / 1000.0 * l.refillPerSecond)
  }

  function TtlSeconds(l: Limits): int
    requires l.Valid()
  {
    Ceil(l.capacity as real / l.refillPerSecond) + 1
  }

  function Allows(l: Limits, stored: Option<Bucket>, nowMs: int, cost: int): bool {
    Refilled(l, stored, nowMs) >= cost as real
  }

  /** The bucket written back by one call. */
  function Spent(l: Limits, stored: Option<Bucket>, nowMs: int, cost: int): Bucket
    requires l.Valid()
  {
    var tokens := Refilled(l, stored, nowMs);
    Bucket(if tokens >= cost as real then tokens - cost as real else tokens, nowMs, nowMs + TtlSeconds(l) * 1000)
  }

  function Verdict(l: Limits, stored: Option<Bucket>, nowMs: int, cost: int): Decision
    requires l.Valid()
  {
    var after := Spent(l, stored, nowMs, cost);
    var allowed := Allows(l, stored, nowMs, cost);
    Decision(allowed, after.tokens.Floor,
             if allowed then 0 else Ceil((cost as real - after.tokens) / l.refillPerSecond))
  }

  /** What the store still holds of a key at some moment. */
  function Live(stored: Option<Bucket>, nowMs: int): Option<Bucket> {
    if stored.Some? && stored.value.expiresMs <= nowMs then None else stored
  }

  class RateLimiter {
    var buckets: map<string, Bucket>

    constructor ()
      ensures buckets == map[]
    {
      buckets := map[];
    }

    function Stored(key: string): Option<Bucket>
      reads this
    {
      if key in buckets then Some(buckets[key]) else None
    }

    /** One call of the limiter. When the store does not reply the request is let
        through, whatever the bucket holds. */
    method TryConsume(
        key: string, capacity: int, refillPerSecond: real, cost: int, nowMs: int, store: Store) returns (r: Outcome)
      modifies this
      ensures r == IllegalArgument <==> capacity <= 0 || refillPerSecond <= 0.0
      ensures var l := Limits(capacity, refillPerSecond);
              if !l.Valid() then r == IllegalArgument && buckets == old(buckets)
              else
                var live := Live(old(Stored(key)), nowMs);
                && r == Decided(if store.Replies? then Verdict(l, live, nowMs, cost) else Decision(true, capacity, 0))
                && buckets == if store == Silent(false) then old(buckets)
                              else old(buckets)[key := Spent(l, live, nowMs, cost)]
    {
      if capacity <= 0 || refillPerSecond <= 0.0 {
        return IllegalArgument;
      }
      if store == Silent(false) {
        return Decided(Decision(true, capacity, 0));
      }
      var decision := RunScript(key, capacity, refillPerSecond, cost, nowMs);
      return Decided(if store.Replies? then decision else Decision(true, capacity, 0));
    }

    /** One script call; the caller's clock is the store's. */
    method RunScript(key: string, capacity: int, refillPerSecond: real, cost: int, nowMs: int) returns (r: Decision)
      requires Limits(capacity, refillPerSecond).Valid()
      modifies this
      ensures var l, live := Limits(capacity, refillPerSecond), Live(old(Stored(key)), nowMs);
              && r == Verdict(l, live, nowMs, cost)
              && buckets == old(buckets)[key := Spent(l, live, nowMs, cost)]
    {
      var tokens, updatedMs := capacity as real, nowMs;
      if key in buckets && buckets[key].expiresMs > nowMs {
        tokens, updatedMs := buckets[key].tokens, buckets[key].updatedMs;
      }
      var elapsed := Max(0, nowMs - updatedMs) as real / 1000.0;
      assert elapsed == 0.0 ==> elapsed * refillPerSecond == 0.0;
      tokens := MinReal(capacity as real, tokens + elapsed * refillPerSecond);
      assert tokens == Refilled(Limits(capacity, refillPerSecond), Live(old(Stored(key)), nowMs), nowMs);
      var allowed := false;
      if tokens >= cost as real {
        tokens := tokens - cost as real;
        allowed := true;
      }
      var ttl := Ceil(capacity as real / refillPerSecond) + 1;
      buckets := buckets[key := Bucket(tokens, nowMs, nowMs + ttl * 1000)];
      var retryAfter := 0;
      if !allowed {
        retryAfter := Ceil((cost as real - tokens) / refillPerSecond);
      }
      return Decision(allowed, tokens.Floor, retryAfter);
    }
  }

  // ---- Runs of calls on one key ----

  datatype Run = Begin | Call(prev: Run, nowMs: int, cost: int)

  /** The bucket after a run that starts from some state, nothing expiring. */
  function After(l: Limits, start: Option<Bucket>, run: Run): Option<Bucket>
    requires l.Valid()
  {
    match run
    case Begin => start
    case Call(prev, now, cost) => Some(Spent(l, After(l, start, prev), now, cost))
  }

  /** Total cost of the calls of a run that were answered allowed. */
  function Admitted(l: Limits, start: Option<Bucket>, run: Run): int
    requires l.Valid()
  {
    match run
    case Begin => 0
    case Call(prev, now, cost) =>
      Admitted(l, start, prev) + if Verdict(l, After(l, start, prev), now, cost).allowed then cost else 0
  }

  function Clock(run: Run): Option<int> {
    match run
    case Begin => None
    case Call(_, now, _) => Some(now)
  }

  /** Milliseconds the clock moved forward between the calls of a run. */
  function ForwardMs(run: Run): nat {
    match run
    case Begin => 0
    case Call(prev, now, _) => ForwardMs(prev) + if prev.Begin? then 0 else Max(0, now - prev.nowMs)
  }

  ghost predicate NonDecreasing(run: Run) {
    match run
    case Begin => true
    case Call(prev, now, _) => NonDecreasing(prev) && (prev.Call? ==> prev.nowMs <= now)
  }

  ghost predicate CostsNonNegative(run: Run) {
    match run
    case Begin => true
    case Call(prev, _, cost) => CostsNonNegative(prev) && cost >= 0
  }

  ghost predicate HasNoDebt(stored: Option<Bucket>) { stored.Some? ==> stored.value.tokens >= 0.0 }

  lemma RefillBounds(l: Limits, stored: Option<Bucket>, nowMs: int)
    requires l.Valid() && HasNoDebt(stored)
    ensures 0.0 <= Refilled(l, stored, nowMs) <= l.capacity as real
    ensures stored.Some? ==>
              Refilled(l, stored, nowMs) <=
              stored.value.tokens + l.refillPerSecond * (Max(0, nowMs - stored.value.updatedMs) as real / 1000.0)
  {
    if stored.Some? {
      var e := Max(0, nowMs - stored.value.updatedMs) as real / 1000.0;
      assert e * l.refillPerSecond >= 0.0;
      assert e * l.refillPerSecond == l.refillPerSecond * e;
    }
  }

  /** A bucket never goes into debt, whatever the clock and the costs do; it stays
      within its capacity as long as no cost is negative. */
  lemma {:induction false} TokensStayInRange(l: Limits, start: Option<Bucket>, run: Run)
    requires l.Valid() && HasNoDebt(start)
    ensures HasNoDebt(After(l, start, run))
    ensures run.Call? && run.cost >= 0 ==> After(l, start, run).value.tokens <= l.capacity as real
  {
    match run
    case Begin =>
    case Call(prev, now, _) =>
      TokensStayInRange(l, start, prev);
      RefillBounds(l, After(l, start, prev), now);
  }

  /** A negative cost is not rejected, and leaves more than the capacity. */
  lemma NegativeCostOverfills(l: Limits, nowMs: int, cost: int)
    requires l.Valid() && cost < 0
    ensures After(l, None, Call(Begin, nowMs, cost)).value.tokens > l.capacity as real
  {
  }

  /** Tokens refilled over some milliseconds. */
  function Minted(l: Limits, ms: int): real {
    l.refillPerSecond * (ms as real / 1000.0)
  }

  function Allowance(l: Limits, forwardMs: int): real {
    l.capacity as real + Minted(l, forwardMs)
  }

  lemma MintedAdds(l: Limits, a: int, b: int)
    ensures Minted(l, a + b) == Minted(l, a) + Minted(l, b)
    ensures Minted(l, 0) == 0.0
  {
    var x, y := a as real / 1000.0, b as real / 1000.0;
    assert (a + b) as real / 1000.0 == x + y;
    assert l.refillPerSecond * (x + y) == l.refillPerSecond * x + l.refillPerSecond * y;
  }

  function Charged(l: Limits, stored: Option<Bucket>, nowMs: int, cost: int): int {
    if Allows(l, stored, nowMs, cost) then cost else 0
  }

  lemma CallIsBacked(l: Limits, stored: Option<Bucket>, nowMs: int, cost: int)
    requires l.Valid() && HasNoDebt(stored)
    ensures var left := Charged(l, stored, nowMs, cost) as real + Spent(l, stored, nowMs, cost).tokens;
            && left <= l.capacity as real
            && (stored.Some? ==>
                  left <= stored.value.tokens + Minted(l, Max(0, nowMs - stored.value.updatedMs)))
  {
    RefillBounds(l, stored, nowMs);
  }

  /** What was admitted plus what is left never exceeds the allowance. */
  lemma {:induction false} SpendingIsBacked(l: Limits, start: Option<Bucket>, run: Run)
    requires l.Valid() && HasNoDebt(start) && run.Call?
    ensures Admitted(l, start, run) as real + After(l, start, run).value.tokens <= Allowance(l, ForwardMs(run))
  {
    var prev := run.prev;
    hide Minted, Refilled, Allows, TtlSeconds;
    var stored := After(l, start, prev);
    TokensStayInRange(l, start, prev);
    CallIsBacked(l, stored, run.nowMs, run.cost);
    assert Admitted(l, start, run) == Admitted(l, start, prev) + Charged(l, stored, run.nowMs, run.cost);
    MintedAdds(l, ForwardMs(prev), ForwardMs(run) - ForwardMs(prev));
    if prev.Call? {
      SpendingIsBacked(l, start, prev);
    }
  }

  /** Over any stretch of consecutive calls, from any debt-free state and under any
      clock, the admitted cost is at most the capacity plus the refill for the time the
      clock moved forward. */
  lemma AdmissionBound(l: Limits, start: Option<Bucket>, run: Run)
    requires l.Valid() && HasNoDebt(start) && run.Call?
    ensures Admitted(l, start, run) as real <= Allowance(l, ForwardMs(run))
  {
    hide Allowance;
    SpendingIsBacked(l, start, run);
    TokensStayInRange(l, start, run);
  }

  /** The bound is attained: a full bucket spent at once, then the refill spent as soon
      as it has come in. */
  lemma AdmissionBoundIsAttained(l: Limits, waitMs: nat, refilled: nat)
    requires l.Valid() && refilled <= l.capacity && Minted(l, waitMs) == refilled as real
    ensures var run := Call(Call(Begin, 0, l.capacity), waitMs, refilled);
            Admitted(l, None, run) as real == Allowance(l, ForwardMs(run))
  {
    var first, b := Call(Begin, 0, l.capacity), Spent(l, None, 0, l.capacity);
    SpendsAll(l);
    RefillIsMinted(l, b, waitMs);
    hide Refilled, Minted, TtlSeconds, ForwardMs, After, Admitted, Spent, Verdict;
    RunStep(l, Begin, 0, l.capacity);
    RunStep(l, first, waitMs, refilled);
    TakesExactly(l, b, waitMs, refilled);
  }

  /** A fresh bucket can be emptied at once. */
  lemma SpendsAll(l: Limits)
    requires l.Valid()
    ensures Verdict(l, None, 0, l.capacity).allowed
    ensures Spent(l, None, 0, l.capacity).tokens == 0.0 && Spent(l, None, 0, l.capacity).updatedMs == 0
  {
  }

  lemma TakesExactly(l: Limits, b: Bucket, nowMs: int, cost: int)
    requires l.Valid() && Refilled(l, Some(b), nowMs) == cost as real
    ensures Verdict(l, Some(b), nowMs, cost).allowed
  {
  }

  lemma RunStep(l: Limits, prev: Run, nowMs: int, cost: int)
    requires l.Valid()
    ensures After(l, None, Begin) == None && Admitted(l, None, Begin) == 0 && ForwardMs(Begin) == 0
    ensures var run := Call(prev, nowMs, cost);
            && After(l, None, run) == Some(Spent(l, After(l, None, prev), nowMs, cost))
            && Admitted(l, None, run) ==
               Admitted(l, None, prev) + (if Verdict(l, After(l, None, prev), nowMs, cost).allowed then cost else 0)
            && ForwardMs(run) == ForwardMs(prev) + if prev.Begin? then 0 else Max(0, nowMs - prev.nowMs)
  {
    hide Spent, Verdict;
  }

  /** Under a clock that went back, it is the time forward from there that mints, though
      some of it had minted before: the bound counts it again, and that is attained too. */
  lemma BackwardClockMintsAgain(l: Limits, backMs: nat, waitMs: nat, refilled: nat)
    requires l.Valid() && refilled <= l.capacity && Minted(l, waitMs) == refilled as real
    ensures var run := Call(Call(Call(Begin, 0, l.capacity), 0 - backMs, 0), waitMs - backMs, refilled);
            ForwardMs(run) == waitMs && Admitted(l, None, run) as real == Allowance(l, ForwardMs(run))
  {
    var first := Call(Begin, 0, l.capacity);
    var second := Call(first, 0 - backMs, 0);
    var b := Spent(l, None, 0, l.capacity);
    var c := Spent(l, Some(b), 0 - backMs, 0);
    SpendsAll(l);
    NothingMinted(l, b, 0 - backMs);
    RefillIsMinted(l, c, waitMs - backMs);
    hide Refilled, Minted, TtlSeconds, ForwardMs, After, Admitted, Spent, Verdict;
    RunStep(l, Begin, 0, l.capacity);
    RunStep(l, first, 0 - backMs, 0);
    RunStep(l, second, waitMs - backMs, refilled);
    TakesExactly(l, c, waitMs - backMs, refilled);
  }

  lemma NothingMinted(l: Limits, b: Bucket, nowMs: int)
    requires l.Valid() && b.tokens == 0.0 && nowMs <= b.updatedMs
    ensures Spent(l, Some(b), nowMs, 0).tokens == 0.0 && Spent(l, Some(b), nowMs, 0).updatedMs == nowMs
  {
    RefillIsMinted(l, b, nowMs);
    MintedAdds(l, 0, 0);
  }

  lemma RefillIsMinted(l: Limits, b: Bucket, nowMs: int)
    ensures Refilled(l, Some(b), nowMs) ==
            MinReal(l.capacity as real, b.tokens + Minted(l, Max(0, nowMs - b.updatedMs)))
  {
    var e := Max(0, nowMs - b.updatedMs) as real / 1000.0;
    assert e * l.refillPerSecond == l.refillPerSecond * e;
  }

  function FirstMs(run: Run): int
    requires run.Call?
  {
    if run.prev.Begin? then run.nowMs else FirstMs(run.prev)
  }

  /** With a clock that never goes back that is the elapsed time. */
  lemma {:induction false} ForwardIsElapsed(run: Run)
    requires run.Call? && NonDecreasing(run)
    ensures ForwardMs(run) == run.nowMs - FirstMs(run)
  {
    if run.prev.Call? {
      ForwardIsElapsed(run.prev);
    }
  }

  // ---- Expiry ----

  /** The same run against a store that drops the key when its expiry comes. */
  function AfterExpiring(l: Limits, run: Run): Option<Bucket>
    requires l.Valid()
  {
    match run
    case Begin => None
    case Call(prev, now, cost) => Some(Spent(l, Live(AfterExpiring(l, prev), now), now, cost))
  }

  lemma CeilBounds(x: real)
    ensures x <= Ceil(x) as real < x + 1.0
  {
  }

  /** By the time a bucket expires it has been full for a second. */
  lemma ExpiredMeansFull(l: Limits, b: Bucket, nowMs: int)
    requires l.Valid() && b.tokens >= 0.0 && b.expiresMs == b.updatedMs + TtlSeconds(l) * 1000
    requires b.expiresMs <= nowMs
    ensures Refilled(l, Some(b), nowMs) == Refilled(l, None, nowMs)
  {
    var full := l.capacity as real / l.refillPerSecond;
    CeilBounds(full);
    assert full * l.refillPerSecond == l.capacity as real;
    var e := Max(0, nowMs - b.updatedMs) as real / 1000.0;
    assert e >= full;
    ScaleCompare(full, e, l.refillPerSecond);
  }

  /** Expiry is unobservable: on a clock shared with the store that never goes back, a
      bucket that vanishes when its time to live runs out answers every call exactly as
      one that never does. */
  lemma {:induction false} ExpiryIsUnobservable(l: Limits, run: Run, nowMs: int, cost: int)
    requires l.Valid() && NonDecreasing(Call(run, nowMs, cost))
    ensures AfterExpiring(l, run) == After(l, None, run)
    ensures Verdict(l, Live(AfterExpiring(l, run), nowMs), nowMs, cost) == Verdict(l, After(l, None, run), nowMs, cost)
  {
    if run.Call? {
      ExpiryIsUnobservable(l, run.prev, run.nowMs, run.cost);
      TokensStayInRange(l, None, run);
      SameAnswer(l, AfterExpiring(l, run.prev), run.prev, run.nowMs, run.cost);
      var b := After(l, None, run).value;
      if b.expiresMs <= nowMs {
        ExpiredMeansFull(l, b, nowMs);
      }
    }
  }

  lemma SameAnswer(l: Limits, stored: Option<Bucket>, run: Run, nowMs: int, cost: int)
    requires l.Valid() && stored == After(l, None, run)
    ensures Spent(l, Live(stored, nowMs), nowMs, cost) == Spent(l, stored, nowMs, cost)
  {
    TokensStayInRange(l, None, run);
    if stored.Some? && stored.value.expiresMs <= nowMs {
      ExpiredMeansFull(l, stored.value, nowMs);
    }
  }

  // ---- What the decision tells the client ----

  /** What the answer means. An absent bucket allows every cost up to the capacity. A
      positive cost is allowed exactly when it has been taken from what had been refilled;
      a denial takes nothing, leaves less than was asked for, and names a wait. */
  lemma DecisionIsHonoured(l: Limits, stored: Option<Bucket>, nowMs: int, cost: int)
    requires l.Valid()
    ensures var d, after, refilled := Verdict(l, stored, nowMs, cost), Spent(l, stored, nowMs, cost).tokens,
                                      Refilled(l, stored, nowMs);
            && (stored.None? ==> (d.allowed <==> cost <= l.capacity))
            && (cost > 0 ==> (d.allowed <==> after == refilled - cost as real))
            && (!d.allowed ==> after == refilled && d.remainingTokens < cost && d.retryAfterSeconds > 0)
            && (d.allowed ==> after >= 0.0 && d.remainingTokens >= 0 && d.retryAfterSeconds == 0)
  {
    var tokens := Refilled(l, stored, nowMs);
    if tokens < cost as real {
      var need := (cost as real - tokens) / l.refillPerSecond;
      CeilBounds(need);
      Quotient(cost as real - tokens, l.refillPerSecond, 0.0);
    }
  }

  /** An idle key outlives the time it takes to refill from empty by one to two seconds. */
  lemma TimeToLive(l: Limits)
    requires l.Valid()
    ensures var full := l.capacity as real / l.refillPerSecond;
            full + 1.0 <= TtlSeconds(l) as real < full + 2.0
  {
    CeilBounds(l.capacity as real / l.refillPerSecond);
  }

  /** The remaining tokens reported are the largest cost a further call at the same
      moment would be allowed. */
  lemma RemainingIsSpendable(l: Limits, stored: Option<Bucket>, nowMs: int, cost: nat, more: int)
    requires l.Valid() && HasNoDebt(stored)
    ensures Allows(l, Some(Spent(l, stored, nowMs, cost)), nowMs, more) <==>
            more <= Verdict(l, stored, nowMs, cost).remainingTokens
  {
    RefillBounds(l, stored, nowMs);
    var after := Spent(l, stored, nowMs, cost);
    RefillAfterSeconds(l, after, 0);
    assert 0 as real * l.refillPerSecond == 0.0;
    assert after.tokens >= more as real <==> after.tokens.Floor >= more;
  }

  /** After a denial at a cost the bucket can hold, waiting k whole seconds with no
      other call is enough exactly when k is at least the advertised retry-after. */
  lemma RetryAfterIsExact(l: Limits, stored: Option<Bucket>, nowMs: int, cost: int, k: nat)
    requires l.Valid() && !Allows(l, stored, nowMs, cost) && cost <= l.capacity
    ensures var after := Spent(l, stored, nowMs, cost);
            Allows(l, Some(after), nowMs + 1000 * k, cost) <==>
            k >= Verdict(l, stored, nowMs, cost).retryAfterSeconds
  {
    hide Refilled, Ceil, TtlSeconds;
    var after, r := Spent(l, stored, nowMs, cost), l.refillPerSecond;
    var need := (cost as real - after.tokens) / r;
    CeilIsLeast(need, k);
    Quotient(cost as real - after.tokens, r, k as real);
    RefillAfterSeconds(l, after, k);
    assert Verdict(l, stored, nowMs, cost).retryAfterSeconds == Ceil(need);
  }

  lemma CeilIsLeast(x: real, k: int)
    ensures k >= Ceil(x) <==> k as real >= x
  {
    CeilBounds(x);
  }

  lemma RefillAfterSeconds(l: Limits, b: Bucket, k: nat)
    ensures Refilled(l, Some(b), b.updatedMs + 1000 * k) ==
            MinReal(l.capacity as real, b.tokens + k as real * l.refillPerSecond)
  {
    assert (1000 * k) as real / 1000.0 == k as real;
  }

  /** A cost above the capacity is denied at every moment, though the denial still
      advertises a positive wait. */
  lemma OversizedCostNeverAllowed(l: Limits, stored: Option<Bucket>, nowMs: int, cost: int)
    requires l.Valid() && HasNoDebt(stored) && cost > l.capacity
    ensures !Allows(l, stored, nowMs, cost)
    ensures Verdict(l, stored, nowMs, cost).retryAfterSeconds > 0
  {
    RefillBounds(l, stored, nowMs);
    var need := (cost as real - Refilled(l, stored, nowMs)) / l.refillPerSecond;
    CeilBounds(need);
    assert need * l.refillPerSecond == cost as real - Refilled(l, stored, nowMs);
    ScaleCompare(need, 0.0, l.refillPerSecond);
  }
}
