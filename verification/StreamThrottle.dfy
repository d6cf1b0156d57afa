/** The per-subscriber rate limit of the quote stream: publisher threads race through
    read, check and compare-and-set on one shared timestamp. */
module StreamThrottle {
  import opened Events
  import opened Arithmetic

  const DEFAULT_UPDATES_HZ := 10
  const MAX_UPDATES_HZ := 100

  /** The request field is an unsigned 32-bit number read as a signed one. */
  function SignedField(wire: nat): int
    requires wire < 0x1_0000_0000
  {
    if wire < 0x8000_0000 then wire else wire - 0x1_0000_0000
  }

  /** The signed number with the same 32 bits. */
  lemma SignedFieldIsWire(wire: nat)
    requires wire < 0x1_0000_0000
    ensures -0x8000_0000 <= SignedField(wire) < 0x8000_0000 && (wire - SignedField(wire)) % 0x1_0000_0000 == 0
  {
  }

  /** Integer division that truncates toward zero. */
  function TruncatedDiv(a: nat, b: int): int
    requires b != 0
  {
    if b > 0 then a / b else -(a / -b)
  }

  function MinIntervalUs(field: int): int {
    var hz := if field == 0 then DEFAULT_UPDATES_HZ else Min(field, MAX_UPDATES_HZ);
    TruncatedDiv(1_000_000, hz)
  }

  /** The interval throttles (at 100 Hz or less) exactly when the requested rate fits a
      signed integer; a larger one reads as negative and turns the throttle off. */
  lemma IntervalThrottlesIff(wire: nat)
    requires wire < 0x1_0000_0000
    ensures MinIntervalUs(SignedField(wire)) >= 10_000 <==> wire < 0x8000_0000
    ensures wire >= 0x8000_0000 ==> MinIntervalUs(SignedField(wire)) <= 0
  {
    var field := SignedField(wire);
    if field > 0 {
      RateBoundsInterval(Min(field, MAX_UPDATES_HZ));
    } else if field < 0 {
      assert 1_000_000 / -field >= 0;
    }
  }

  /** The interval is the longest that still lets the requested rate through, with 10 a
      second when none is asked for and 100 a second at most; a negative rate has no such
      interval and its quotient is not positive. */
  lemma IntervalFitsRate(field: int)
    ensures var us := MinIntervalUs(field);
            && (field == 0 ==> us == 100_000)
            && (1 <= field <= 100 ==> us * field <= 1_000_000 < (us + 1) * field)
            && (field > 100 ==> us == 10_000)
            && (field < 0 ==> us <= 0 && -us * -field <= 1_000_000 < (1 - us) * -field)
  {
    if field != 0 {
      var n := if field < 0 then -field else Min(field, MAX_UPDATES_HZ);
      var q, r := 1_000_000 / n, 1_000_000 % n;
      assert 1_000_000 == q * n + r && 0 <= r < n;
      assert (q + 1) * n == q * n + n;
      assert field < 0 ==> MinIntervalUs(field) == -q;
    }
  }

  lemma RateBoundsInterval(hz: int)
    requires 0 < hz <= 100
    ensures 1_000_000 / hz >= 10_000
  {
    var q, r := 1_000_000 / hz, 1_000_000 % hz;
    assert 1_000_000 == hz * q + r;
    assert hz * (q + 1) == hz * q + hz;
    MulCompare(hz, 100, q + 1);
  }

  // ---- One thread at a time ----

  class AtomicLong {
    var value: int

    constructor (v: int)
      ensures value == v
    {
      value := v;
    }

    method CompareAndSet(expected: int, update: int) returns (swapped: bool)
      modifies this
      ensures swapped == (old(value) == expected)
      ensures value == if swapped then update else old(value)
    {
      swapped := value == expected;
      if swapped {
        value := update;
      }
    }
  }

  class QuoteStream {
    const lastSentUs: AtomicLong
    const minIntervalUs: int
    const venues: set<string>
    var sent: seq<int>
    var droppedForSlowClients: nat

    constructor (maxUpdatesHz: int, venues: set<string>)
      ensures minIntervalUs == MinIntervalUs(maxUpdatesHz) && this.venues == venues
      ensures sent == [] && droppedForSlowClients == 0
      ensures fresh(lastSentUs) && lastSentUs.value == 0
    {
      minIntervalUs := MinIntervalUs(maxUpdatesHz);
      this.venues := venues;
      lastSentUs := new AtomicLong(0);
      sent, droppedForSlowClients := [], 0;
    }

    /** No venue asked for means every venue. */
    predicate Wants(venue: string) { venues == {} || venue in venues }

    /** A quote of some venue; `ready` is whether the call can take it now. With no other
        thread in between it goes out exactly when the subscriber wants its venue, the
        call is ready and the interval has passed; only a wanted quote that finds the
        call not ready counts as dropped for a slow client. */
    method Offer(venue: string, now: int, ready: bool)
      modifies this`sent, this`droppedForSlowClients, lastSentUs
      ensures var wanted := venues == {} || venue in venues;
              var goes := wanted && ready && now - old(lastSentUs.value) >= minIntervalUs;
              && sent == old(sent) + (if goes then [now] else [])
              && lastSentUs.value == if goes then now else old(lastSentUs.value)
      ensures var wanted := venues == {} || venue in venues;
              droppedForSlowClients == old(droppedForSlowClients) + if wanted && !ready then 1 else 0
    {
      if !Wants(venue) {
        return;
      }
      if !ready {
        droppedForSlowClients := droppedForSlowClients + 1;
        return;
      }
      var previous := lastSentUs.value;
      if now - previous < minIntervalUs {
        return;
      }
      var swapped := lastSentUs.CompareAndSet(previous, now);
      if !swapped {
        return;
      }
      sent := sent + [now];
    }
  }

  // ---- Any number of threads, any interleaving ----

  /** Where a publisher thread stands with the quote it carries. */
  datatype Phase = Idle | Holding(now: int) | Passed(now: int, previous: int)

  /** `sent` lists the timestamps written to `last`, in the order they were written. */
  datatype State = State(last: int, threads: map<nat, Phase>, sent: seq<int>)

  const INITIAL := State(0, map[], [])

  /** Each step is one atomic access: take up a quote, read the timestamp and check the
      interval, compare-and-set. */
  datatype Step = TakeUp(thread: nat, now: int) | ReadAndCheck(thread: nat) | CompareAndSet(thread: nat)

  function PhaseOf(s: State, thread: nat): Phase {
    if thread in s.threads then s.threads[thread] else Idle
  }

  function Next(minIntervalUs: int, s: State, step: Step): State {
    var p := PhaseOf(s, step.thread);
    match step
    case TakeUp(t, now) => if p.Idle? then s.(threads := s.threads[t := Holding(now)]) else s
    case ReadAndCheck(t) =>
      if !p.Holding? then s
      else s.(threads := s.threads[t := if p.now - s.last < minIntervalUs then Idle else Passed(p.now, s.last)])
    case CompareAndSet(t) =>
      if !p.Passed? then s
      else
        var done := s.(threads := s.threads[t := Idle]);
        if s.last == p.previous then done.(last := p.now, sent := s.sent + [p.now]) else done
  }

  datatype Run = Begin | Then(prev: Run, step: Step)

  function StateAfter(minIntervalUs: int, run: Run): State {
    match run
    case Begin => INITIAL
    case Then(prev, step) => Next(minIntervalUs, StateAfter(minIntervalUs, prev), step)
  }

  /** The timestamp in force before the i-th send. */
  function Previous(sent: seq<int>, i: nat): int
    requires i <= |sent|
  {
    if i == 0 then 0 else sent[i - 1]
  }

  /** The written timestamps form a chain from 0, each at least an interval later. */
  ghost predicate Chain(sent: seq<int>, minIntervalUs: int) {
    forall i :: 0 <= i < |sent| ==> sent[i] - Previous(sent, i) >= minIntervalUs
  }

  ghost predicate Inv(minIntervalUs: int, s: State) {
    && Chain(s.sent, minIntervalUs)
    && s.last == Previous(s.sent, |s.sent|)
    && forall t :: t in s.threads && s.threads[t].Passed? ==>
         s.threads[t].now - s.threads[t].previous >= minIntervalUs
  }

  lemma {:induction false} ReachableInv(minIntervalUs: int, run: Run)
    ensures Inv(minIntervalUs, StateAfter(minIntervalUs, run))
  {
    match run
    case Begin =>
    case Then(prev, step) =>
      ReachableInv(minIntervalUs, prev);
      StepKeepsInv(minIntervalUs, StateAfter(minIntervalUs, prev), step);
  }

  lemma StepKeepsInv(minIntervalUs: int, s: State, step: Step)
    requires Inv(minIntervalUs, s)
    ensures Inv(minIntervalUs, Next(minIntervalUs, s, step))
  {
    var p := PhaseOf(s, step.thread);
    if step.CompareAndSet? && p.Passed? && s.last == p.previous {
      ChainExtends(s.sent, p.now, minIntervalUs);
    }
  }

  lemma ChainExtends(sent: seq<int>, now: int, minIntervalUs: int)
    requires Chain(sent, minIntervalUs)
    requires now - Previous(sent, |sent|) >= minIntervalUs
    ensures Chain(sent + [now], minIntervalUs)
  {
    var longer := sent + [now];
    forall i | 0 <= i < |longer| ensures longer[i] - Previous(longer, i) >= minIntervalUs {
      assert Previous(longer, i) == Previous(sent, i);
      if i < |sent| { assert longer[i] == sent[i]; }
    }
  }

  lemma {:induction false} ChainSpacing(sent: seq<int>, minIntervalUs: int, i: nat, j: nat)
    requires Chain(sent, minIntervalUs) && i <= j < |sent|
    ensures sent[j] - sent[i] >= (j - i) * minIntervalUs
  {
    if i < j {
      ChainSpacing(sent, minIntervalUs, i, j - 1);
      assert (j - i) * minIntervalUs == (j - 1 - i) * minIntervalUs + minIntervalUs;
    }
  }

  /** Under every interleaving of any number of threads, with any emit times: the sends
      are spaced by at least the interval, so any stretch of them within a span of w
      microseconds of emit time counts at most w / interval + 1. */
  lemma SendsAreThrottled(minIntervalUs: int, run: Run, i: nat, j: nat, w: nat)
    requires minIntervalUs > 0
    requires var sent := StateAfter(minIntervalUs, run).sent; i <= j < |sent| && sent[j] - sent[i] <= w
    ensures j - i + 1 <= w / minIntervalUs + 1
  {
    hide StateAfter, Chain;
    var sent := StateAfter(minIntervalUs, run).sent;
    ReachableInv(minIntervalUs, run);
    ChainSpacing(sent, minIntervalUs, i, j);
    AtMostQuotient(j - i, minIntervalUs, w);
  }

  function Once(run: Run, now: int): Run {
    Then(Then(Then(run, TakeUp(0, now)), ReadAndCheck(0)), CompareAndSet(0))
  }

  /** One thread offering a quote every interval. */
  function Paced(minIntervalUs: int, n: nat): Run {
    if n == 0 then Begin else Once(Paced(minIntervalUs, n - 1), n * minIntervalUs)
  }

  lemma OnceSends(minIntervalUs: int, run: Run, now: int)
    requires var s := StateAfter(minIntervalUs, run); PhaseOf(s, 0).Idle? && now - s.last >= minIntervalUs
    ensures var s, t := StateAfter(minIntervalUs, run), StateAfter(minIntervalUs, Once(run, now));
            t.sent == s.sent + [now] && t.last == now && PhaseOf(t, 0).Idle?
  {
    var s := StateAfter(minIntervalUs, run);
    var s1 := Next(minIntervalUs, s, TakeUp(0, now));
    var s2 := Next(minIntervalUs, s1, ReadAndCheck(0));
    assert StateAfter(minIntervalUs, Then(run, TakeUp(0, now))) == s1;
    assert StateAfter(minIntervalUs, Then(Then(run, TakeUp(0, now)), ReadAndCheck(0))) == s2;
  }

  /** The bound is attained: one thread offering a quote every interval sends all n of
      them, which is the span's quotient plus one. */
  lemma {:induction false} ThrottleIsAttained(minIntervalUs: int, n: nat)
    requires minIntervalUs > 0
    ensures var s := StateAfter(minIntervalUs, Paced(minIntervalUs, n));
            && |s.sent| == n && PhaseOf(s, 0).Idle?
            && s.last == n * minIntervalUs
            && (n > 0 ==> s.sent[0] == minIntervalUs && s.sent[n - 1] == n * minIntervalUs
                          && n == (s.sent[n - 1] - s.sent[0]) / minIntervalUs + 1)
  {
    if n > 0 {
      hide StateAfter, Once;
      ThrottleIsAttained(minIntervalUs, n - 1);
      assert n * minIntervalUs == (n - 1) * minIntervalUs + minIntervalUs;
      OnceSends(minIntervalUs, Paced(minIntervalUs, n - 1), n * minIntervalUs);
      ExactQuotient(n - 1, minIntervalUs);
    }
  }

  lemma ExactQuotient(n: nat, interval: int)
    requires interval > 0
    ensures n * interval / interval == n
  {
    AtMostQuotient(n, interval, n * interval);
    var q := n * interval / interval;
    assert n * interval == q * interval + n * interval % interval;
    MulCompare(q, n, interval);
  }

  lemma AtMostQuotient(n: nat, interval: int, w: nat)
    requires interval > 0 && n * interval <= w
    ensures n <= w / interval
  {
    var q := w / interval;
    assert w == q * interval + w % interval;
    assert (q + 1) * interval == q * interval + interval;
    MulCompare(q + 1, n, interval);
  }

  /** A compare-and-set succeeds exactly when nothing was sent since the thread read, so
      of the threads that read the same timestamp at most one sends. */
  lemma OnlyOneWinner(minIntervalUs: int, run: Run, t: nat, u: nat)
    requires minIntervalUs > 0 && t != u
    requires var s := StateAfter(minIntervalUs, run);
             PhaseOf(s, t).Passed? && PhaseOf(s, u).Passed? && PhaseOf(s, t).previous == PhaseOf(s, u).previous
    ensures var s := StateAfter(minIntervalUs, run);
            var won := StateAfter(minIntervalUs, Then(run, CompareAndSet(t)));
            var after := StateAfter(minIntervalUs, Then(Then(run, CompareAndSet(t)), CompareAndSet(u)));
            |after.sent| <= |s.sent| + 1
    ensures var s := StateAfter(minIntervalUs, run);
            |StateAfter(minIntervalUs, Then(run, CompareAndSet(t))).sent| == |s.sent| + 1 <==>
            s.last == PhaseOf(s, t).previous
  {
    ReachableInv(minIntervalUs, run);
    var s := StateAfter(minIntervalUs, run);
    var won := Next(minIntervalUs, s, CompareAndSet(t));
    assert PhaseOf(won, u) == PhaseOf(s, u);
    assert StateAfter(minIntervalUs, Then(run, CompareAndSet(t))) == won;
  }

  /** One thread offering a quote of one instant n times over. */
  function Repeated(run: Run, now: int, n: nat): Run {
    if n == 0 then run else Once(Repeated(run, now, n - 1), now)
  }

  /** With the throttle off, quotes of one instant all go out, from any state in which
      the thread is idle and the instant is not before the last send. */
  lemma {:induction false} NonPositiveIntervalDoesNotThrottle(minIntervalUs: int, run: Run, now: int, n: nat)
    requires minIntervalUs <= 0
    requires var s := StateAfter(minIntervalUs, run); PhaseOf(s, 0).Idle? && s.last <= now
    ensures var s, t := StateAfter(minIntervalUs, run), StateAfter(minIntervalUs, Repeated(run, now, n));
            && t.sent == s.sent + seq(n, _ => now)
            && PhaseOf(t, 0).Idle? && t.last == if n == 0 then s.last else now
  {
    hide StateAfter, Once;
    var s := StateAfter(minIntervalUs, run);
    if n == 0 {
      assert s.sent + [] == s.sent;
    } else {
      NonPositiveIntervalDoesNotThrottle(minIntervalUs, run, now, n - 1);
      OnceSends(minIntervalUs, Repeated(run, now, n - 1), now);
      assert seq(n - 1, _ => now) + [now] == seq(n, _ => now);
    }
  }

  /** No stretch of sends is denser than one per 10 ms and one more. */
  ghost predicate WithinMaxRate(sent: seq<int>) {
    forall i, j :: 0 <= i <= j < |sent| ==> j - i + 1 <= (sent[j] - sent[i]) / 10_000 + 1
  }

  /** What a client can ask for, end to end: under every interleaving of any number of
      threads the sends keep to the maximum rate exactly when the requested rate fits a
      signed integer; past that some run sends without any limit. */
  lemma MaxRateIsKeptIff(wire: nat)
    requires wire < 0x1_0000_0000
    ensures (forall run :: WithinMaxRate(StateAfter(MinIntervalUs(SignedField(wire)), run).sent)) <==>
            wire < 0x8000_0000
  {
    hide WithinMaxRate, StateAfter;
    var interval := MinIntervalUs(SignedField(wire));
    IntervalThrottlesIff(wire);
    if wire < 0x8000_0000 {
      forall run ensures WithinMaxRate(StateAfter(interval, run).sent) { SendsKeepMaxRate(interval, run); }
    } else {
      TwiceAtOnce(interval);
      assert !WithinMaxRate(StateAfter(interval, Repeated(Begin, 0, 2)).sent);
    }
  }

  lemma SendsKeepMaxRate(minIntervalUs: int, run: Run)
    requires minIntervalUs >= 10_000
    ensures WithinMaxRate(StateAfter(minIntervalUs, run).sent)
  {
    hide StateAfter, Chain;
    var sent := StateAfter(minIntervalUs, run).sent;
    ReachableInv(minIntervalUs, run);
    forall i, j | 0 <= i <= j < |sent| ensures j - i + 1 <= (sent[j] - sent[i]) / 10_000 + 1 {
      ChainSpacing(sent, minIntervalUs, i, j);
      assert (j - i) * minIntervalUs >= (j - i) * 10_000;
      AtMostQuotient(j - i, 10_000, sent[j] - sent[i]);
    }
  }

  lemma TwiceAtOnce(minIntervalUs: int)
    requires minIntervalUs <= 0
    ensures !WithinMaxRate(StateAfter(minIntervalUs, Repeated(Begin, 0, 2)).sent)
  {
    assert StateAfter(minIntervalUs, Begin) == INITIAL;
    NonPositiveIntervalDoesNotThrottle(minIntervalUs, Begin, 0, 2);
    var sent := StateAfter(minIntervalUs, Repeated(Begin, 0, 2)).sent;
    assert sent == [0, 0];
    assert sent[0] == 0 && sent[1] == 0 && 0 / 10_000 == 0;
  }
}
