/** Events to log records: check continuity, drop duplicates, frame, and publish in
    batches with retry and drop-oldest. */
module IngestPipeline {
  import opened Events
  import opened Gap

  datatype Kind = TradeKind | BookDeltaKind | ChainTransferKind | OtherKind

  /** `value` is the encoder's output, absent when it rejects the record. */
  datatype Payload = Payload(eventTimeUs: int, value: Option<string>)

  datatype Event = Event(kind: Kind, venue: string, symbol: string, sequence: int, payload: Option<Payload>)

  datatype Message = Message(topic: string, key: string, value: string, timeUs: int, venue: string, kind: Kind)

  const NO_SEQUENCE := -1

  datatype Config = Config(
    batchSize: int, maxPendingEvents: int,
    onResync: OnResync, dropOnGap: bool,
    connectionScoped: set<string>,
    encoders: set<Kind>, topics: map<Kind, string>)
  {
    /** Run's defaults for unset sizes. */
    function Normalized(): Config {
      this.(batchSize := if batchSize <= 0 then 500 else batchSize,
            maxPendingEvents := if maxPendingEvents <= 0 then 100_000 else maxPendingEvents)
    }
  }

  datatype Stats = Stats(
    received: int, published: int, duplicates: int, gaps: int, missed: int,
    encodeErrs: int, publishFailures: int, dropped: int)

  const NO_STATS := Stats(0, 0, 0, 0, 0, 0, 0, 0)

  function ChannelFor(kind: Kind): string {
    match kind
    case TradeKind => "trades"
    case BookDeltaKind => "book"
    case ChainTransferKind => "chain"
    case OtherKind => "unknown"
  }

  function SequenceKey(cfg: Config, ev: Event): Key {
    if ev.venue in cfg.connectionScoped then Key(ev.venue, "", "connection")
    else Key(ev.venue, ev.symbol, ChannelFor(ev.kind))
  }

  /** Which events share a stream: those of one venue, and unless the venue's counter spans
      the connection, of one symbol and one kind. */
  lemma SameStreamIff(cfg: Config, a: Event, b: Event)
    ensures SequenceKey(cfg, a) == SequenceKey(cfg, b) <==>
            a.venue == b.venue && (a.venue in cfg.connectionScoped || (a.symbol == b.symbol && a.kind == b.kind))
  {
  }

  /** Run's defaults replace sizes that are not positive, and nothing else. */
  lemma DefaultsOnlyFillIn(cfg: Config)
    ensures var n := cfg.Normalized();
            && n.batchSize > 0 && n.maxPendingEvents > 0
            && (cfg.batchSize > 0 ==> n.batchSize == cfg.batchSize)
            && (cfg.maxPendingEvents > 0 ==> n.maxPendingEvents == cfg.maxPendingEvents)
            && (cfg.batchSize <= 0 ==> n.batchSize == 500)
            && (cfg.maxPendingEvents <= 0 ==> n.maxPendingEvents == 100_000)
            && n == cfg.(batchSize := n.batchSize, maxPendingEvents := n.maxPendingEvents)
  {
  }

  /** The outcome of the continuity check on one event. */
  datatype Checked = Checked(drop: bool, last: Last, stats: Stats)

  function CheckSequence(cfg: Config, tolerance: int, last: Last, stats: Stats, ev: Event): Checked {
    var key := SequenceKey(cfg, ev);
    var res := Verdict(last, tolerance, key, ev.sequence);
    var last' := Settle(cfg.onResync, last, tolerance, key, ev.sequence);
    match res.status
    case Duplicate => Checked(true, last', stats.(duplicates := stats.duplicates + 1))
    case Gap | Regression =>
      Checked(cfg.dropOnGap, last', stats.(gaps := stats.gaps + 1, missed := stats.missed + res.missing))
    case _ => Checked(false, last', stats)
  }

  /** The check over events in a row. */
  function CheckAll(cfg: Config, tolerance: int, c: Checked, events: seq<Event>): Checked {
    if events == [] then c
    else
      var n := |events| - 1;
      var before := CheckAll(cfg, tolerance, c, events[..n]);
      CheckSequence(cfg, tolerance, before.last, before.stats, events[n])
  }

  lemma {:induction false} CheckAllConcat(cfg: Config, tolerance: int, c: Checked, xs: seq<Event>, ys: seq<Event>)
    ensures CheckAll(cfg, tolerance, c, xs + ys) == CheckAll(cfg, tolerance, CheckAll(cfg, tolerance, c, xs), ys)
  {
    hide CheckSequence;
    if ys == [] {
      assert xs + ys == xs;
    } else {
      var n := |ys| - 1;
      CheckAllConcat(cfg, tolerance, c, xs, ys[..n]);
      assert (xs + ys)[..|xs| + n] == xs + ys[..n];
    }
  }

  function Frame(cfg: Config, ev: Event): Option<Message> {
    if ev.kind !in cfg.encoders || ev.kind !in cfg.topics || ev.payload.None? || ev.payload.value.value.None? then None
    else Some(Message(cfg.topics[ev.kind], ev.symbol, ev.payload.value.value.value,
                      ev.payload.value.eventTimeUs, ev.venue, ev.kind))
  }

  // ---- The loop as steps over its state ----

  /** `accepted` and `kept` are history: every framed message in arrival order, and
      whether it has survived so far. */
  datatype State = State(
    last: Last, batch: seq<Message>, stats: Stats, published: seq<Message>, failing: bool,
    accepted: seq<Message>, kept: seq<bool>)

  const INITIAL := State(map[], [], NO_STATS, [], false, [], [])

  function MarkDropped(kept: seq<bool>, from: nat, count: nat): seq<bool>
    requires from + count <= |kept|
  {
    kept[..from] + seq(count, _ => false) + kept[from + count..]
  }

  ghost predicate Sized(s: State) { |s.batch| <= |s.accepted| == |s.kept| }

  ghost function Flush(cfg: Config, s: State): State
    requires Sized(s) && cfg.maxPendingEvents >= 0
  {
    if s.batch == [] then s
    else if s.failing then
      var failed := s.(stats := s.stats.(publishFailures := s.stats.publishFailures + 1));
      if |s.batch| <= cfg.maxPendingEvents then failed
      else
        var n := |s.batch| - cfg.maxPendingEvents;
        failed.(batch := s.batch[n..],
                stats := failed.stats.(dropped := s.stats.dropped + n),
                kept := MarkDropped(s.kept, |s.accepted| - |s.batch|, n))
    else
      s.(published := s.published + s.batch, batch := [],
         stats := s.stats.(published := s.stats.published + |s.batch|))
  }

  ghost function Receive(cfg: Config, tolerance: int, s: State, ev: Event): State
    requires Sized(s) && cfg.maxPendingEvents >= 0
  {
    var c := CheckSequence(cfg, tolerance, s.last, s.stats.(received := s.stats.received + 1), ev);
    var checked := s.(last := c.last, stats := c.stats);
    if c.drop then checked
    else
      match Frame(cfg, ev)
      case None => checked.(stats := c.stats.(encodeErrs := c.stats.encodeErrs + 1))
      case Some(msg) =>
        var grown := checked.(batch := s.batch + [msg], accepted := s.accepted + [msg], kept := s.kept + [true]);
        if |grown.batch| >= cfg.batchSize then Flush(cfg, grown) else grown
  }

  /** One turn of the select loop, or something its surroundings do: the broker
      failing or recovering, a reconnect resetting a venue's streams. */
  datatype Step = Arrive(ev: Event) | Tick | SetFailing(failing: bool) | Reconnect(venue: string)

  ghost function Next(cfg: Config, tolerance: int, s: State, step: Step): State
    requires Sized(s) && cfg.maxPendingEvents >= 0
  {
    match step
    case Arrive(ev) => Receive(cfg, tolerance, s, ev)
    case Tick => Flush(cfg, s)
    case SetFailing(f) => s.(failing := f)
    case Reconnect(v) => s.(last := ForgetVenue(s.last, v))
  }

  // ---- What every step keeps ----

  function Survivors(accepted: seq<Message>, kept: seq<bool>): seq<Message>
    requires |accepted| == |kept|
  {
    if accepted == [] then []
    else
      var n := |accepted| - 1;
      Survivors(accepted[..n], kept[..n]) + if kept[n] then [accepted[n]] else []
  }

  function Lost(kept: seq<bool>): int {
    if kept == [] then 0 else Lost(kept[..|kept| - 1]) + if kept[|kept| - 1] then 0 else 1
  }

  ghost predicate AllKept(kept: seq<bool>) { forall i :: 0 <= i < |kept| ==> kept[i] }

  ghost predicate NoneKept(kept: seq<bool>) { forall i :: 0 <= i < |kept| ==> !kept[i] }

  /** Every event received is accounted for. A gapped event that is dropped by
      configuration is counted only as a gap. */
  ghost predicate Conserved(cfg: Config, st: Stats, pending: int) {
    st.received == st.published + st.duplicates + st.encodeErrs + st.dropped + pending
                   + if cfg.dropOnGap then st.gaps else 0
  }

  /** The pending batch is the newest part of what was accepted and none of it is lost. */
  ghost predicate PendingIsNewest(s: State) {
    && Sized(s)
    && s.batch == s.accepted[|s.accepted| - |s.batch|..]
    && AllKept(s.kept[|s.accepted| - |s.batch|..])
  }

  ghost predicate Balanced(cfg: Config, s: State) {
    && PendingIsNewest(s)
    && Conserved(cfg, s.stats, |s.batch|)
    && Survivors(s.accepted, s.kept) == s.published + s.batch
    && Lost(s.kept) == s.stats.dropped
    && |s.published| == s.stats.published
  }

  ghost predicate Inv(cfg: Config, s: State) {
    Balanced(cfg, s) && |s.batch| <= Max(cfg.batchSize - 1, cfg.maxPendingEvents)
  }

  lemma {:induction false} SurvivorsConcat(a: seq<Message>, k: seq<bool>, b: seq<Message>, l: seq<bool>)
    requires |a| == |k| && |b| == |l|
    ensures Survivors(a + b, k + l) == Survivors(a, k) + Survivors(b, l)
    ensures Lost(k + l) == Lost(k) + Lost(l)
  {
    if b == [] {
      assert a + b == a && k + l == k;
    } else {
      var n := |b| - 1;
      SurvivorsConcat(a, k, b[..n], l[..n]);
      assert (a + b)[..|a + b| - 1] == a + b[..n];
      assert (k + l)[..|k + l| - 1] == k + l[..n];
    }
  }

  lemma KeptSplit(k: seq<bool>)
    requires k != []
    ensures AllKept(k) <==> AllKept(k[..|k| - 1]) && k[|k| - 1]
    ensures NoneKept(k) <==> NoneKept(k[..|k| - 1]) && !k[|k| - 1]
  {
    assert forall i :: 0 <= i < |k| - 1 ==> k[..|k| - 1][i] == k[i];
  }

  lemma {:induction false} SurvivorsAll(a: seq<Message>, k: seq<bool>)
    requires |a| == |k|
    ensures AllKept(k) ==> Survivors(a, k) == a && Lost(k) == 0
    ensures NoneKept(k) ==> Survivors(a, k) == [] && Lost(k) == |k|
    ensures 0 <= Lost(k) && (Lost(k) == 0 ==> AllKept(k))
    ensures |Survivors(a, k)| == |k| - Lost(k)
  {
    if a != [] {
      hide AllKept, NoneKept;
      var n := |a| - 1;
      SurvivorsAll(a[..n], k[..n]);
      assert a[..n] + [a[n]] == a;
      KeptSplit(k);
    }
  }

  /** The survivors of a history whose newest part is wholly kept. */
  lemma SurvivorsSplit(a: seq<Message>, k: seq<bool>, p: nat)
    requires |a| == |k| && p <= |a|
    ensures Survivors(a, k) == Survivors(a[..p], k[..p]) + Survivors(a[p..], k[p..])
    ensures Lost(k) == Lost(k[..p]) + Lost(k[p..])
    ensures AllKept(k[p..]) ==> Survivors(a[p..], k[p..]) == a[p..] && Lost(k[p..]) == 0
    ensures NoneKept(k[p..]) ==> Survivors(a[p..], k[p..]) == [] && Lost(k[p..]) == |k| - p
  {
    hide *;
    var a1, a2, k1, k2 := a[..p], a[p..], k[..p], k[p..];
    assert a == a1 + a2 && k == k1 + k2;
    SurvivorsConcat(a1, k1, a2, k2);
    SurvivorsAll(a2, k2);
  }

  /** Marking the oldest n pending messages lost removes exactly those from the survivors. */
  lemma DropOldest(a: seq<Message>, k: seq<bool>, p: nat, n: nat)
    requires |a| == |k| && p + n <= |a| && AllKept(k[p..])
    ensures var k' := MarkDropped(k, p, n);
            && Lost(k') == Lost(k) + n
            && AllKept(k'[p + n..])
            && Survivors(a, k) == Survivors(a[..p], k[..p]) + a[p..]
            && Survivors(a, k') == Survivors(a[..p], k[..p]) + a[p + n..]
  {
    hide Survivors, Lost, AllKept, NoneKept;
    var k', gone := MarkDropped(k, p, n), seq(n, _ => false);
    SurvivorsSplit(a, k, p);
    assert k'[p + n..] == k[p..][n..];
    KeptSlice(k[p..], n);
    SurvivorsSplit(a, k', p + n);
    SurvivorsSplit(a[..p + n], k'[..p + n], p);
    assert a[..p + n][..p] == a[..p] && k'[..p + n][..p] == k[..p] && k'[..p + n][p..] == gone;
  }

  lemma KeptSlice(k: seq<bool>, n: nat)
    requires n <= |k| && AllKept(k)
    ensures AllKept(k[n..]) && NoneKept(seq(n, _ => false))
  {
  }

  lemma AppendKeepsInv(s: State, msg: Message)
    requires PendingIsNewest(s) && Survivors(s.accepted, s.kept) == s.published + s.batch
    ensures var g := s.(batch := s.batch + [msg], accepted := s.accepted + [msg], kept := s.kept + [true]);
            && PendingIsNewest(g)
            && Survivors(g.accepted, g.kept) == g.published + g.batch
            && Lost(g.kept) == Lost(s.kept)
  {
    hide Survivors, Lost;
    SurvivorsConcat(s.accepted, s.kept, [msg], [true]);
    SurvivorsAll([msg], [true]);
    var p := |s.accepted| - |s.batch|;
    assert (s.accepted + [msg])[p..] == s.accepted[p..] + [msg];
    assert (s.kept + [true])[p..] == s.kept[p..] + [true];
  }

  lemma DropBalances(s: State, n: nat)
    requires n <= |s.batch| && PendingIsNewest(s) && Survivors(s.accepted, s.kept) == s.published + s.batch
    ensures var d := s.(batch := s.batch[n..], kept := MarkDropped(s.kept, |s.accepted| - |s.batch|, n));
            && PendingIsNewest(d)
            && Survivors(d.accepted, d.kept) == d.published + d.batch
            && Lost(d.kept) == Lost(s.kept) + n
  {
    hide Survivors, Lost;
    var p := |s.accepted| - |s.batch|;
    DropOldest(s.accepted, s.kept, p, n);
    var done := Survivors(s.accepted[..p], s.kept[..p]);
    assert done + s.batch == s.published + s.batch;
    assert done == (done + s.batch)[..|done|] && s.published == (s.published + s.batch)[..|s.published|];
    assert s.batch[n..] == s.accepted[p + n..];
  }

  lemma FlushBalances(cfg: Config, s: State)
    requires cfg.maxPendingEvents >= 0 && Balanced(cfg, s)
    ensures Balanced(cfg, Flush(cfg, s)) && |Flush(cfg, s).batch| <= cfg.maxPendingEvents
  {
    hide Survivors, Lost;
    if s.failing && |s.batch| > cfg.maxPendingEvents {
      hide AllKept, MarkDropped;
      DropBalances(s, |s.batch| - cfg.maxPendingEvents);
    } else if !s.failing {
      assert s.published + s.batch + [] == s.published + s.batch;
    }
  }

  lemma CheckConserves(cfg: Config, tolerance: int, last: Last, st: Stats, pending: int, ev: Event)
    requires Conserved(cfg, st, pending)
    ensures var c := CheckSequence(cfg, tolerance, last, st.(received := st.received + 1), ev);
            && Conserved(cfg, c.stats, if c.drop then pending else pending + 1)
            && c.stats.dropped == st.dropped && c.stats.published == st.published
  {
  }

  lemma ReceiveKeepsInv(cfg: Config, tolerance: int, s: State, ev: Event)
    requires cfg.batchSize > 0 && cfg.maxPendingEvents > 0 && Inv(cfg, s)
    ensures Inv(cfg, Receive(cfg, tolerance, s, ev))
  {
    hide Survivors, Lost, CheckSequence, AllKept, Frame;
    var c := CheckSequence(cfg, tolerance, s.last, s.stats.(received := s.stats.received + 1), ev);
    CheckConserves(cfg, tolerance, s.last, s.stats, |s.batch|, ev);
    if !c.drop && Frame(cfg, ev).Some? {
      var msg := Frame(cfg, ev).value;
      AppendKeepsInv(s, msg);
      var g := s.(last := c.last, stats := c.stats,
                  batch := s.batch + [msg], accepted := s.accepted + [msg], kept := s.kept + [true]);
      assert Balanced(cfg, g);
      if |g.batch| >= cfg.batchSize {
        FlushBalances(cfg, g);
      }
    }
  }

  lemma StepKeepsInv(cfg: Config, tolerance: int, s: State, step: Step)
    requires cfg.batchSize > 0 && cfg.maxPendingEvents > 0 && Inv(cfg, s)
    ensures Sized(Next(cfg, tolerance, s, step)) && Inv(cfg, Next(cfg, tolerance, s, step))
  {
    hide Survivors, Lost;
    match step
    case Arrive(ev) => ReceiveKeepsInv(cfg, tolerance, s, ev);
    case Tick => FlushBalances(cfg, s);
    case SetFailing(_) =>
    case Reconnect(_) =>
  }

  // ---- Whole runs ----

  datatype Run = Begin | Then(prev: Run, step: Step)

  /** The state after any run of arrivals, ticks, broker failures and reconnects. At
      every loop head the books balance: everything received is published, a
      duplicate, an encode error, dropped, or pending (or a gapped event dropped by
      configuration); the published log followed by the batch is the accepted
      messages in order without exactly the dropped ones; and the batch is bounded. */
  ghost function StateAfter(cfg: Config, tolerance: int, run: Run): (s: State)
    requires cfg.batchSize > 0 && cfg.maxPendingEvents > 0
    ensures Sized(s) && Inv(cfg, s)
  {
    match run
    case Begin => InitialInv(cfg); INITIAL
    case Then(prev, step) =>
      var s := StateAfter(cfg, tolerance, prev);
      hide Inv, Next;
      StepKeepsInv(cfg, tolerance, s, step);
      Next(cfg, tolerance, s, step)
  }

  lemma InitialInv(cfg: Config)
    requires cfg.batchSize > 0 && cfg.maxPendingEvents > 0
    ensures Sized(INITIAL) && Inv(cfg, INITIAL)
  {
    hide Survivors, Lost, Conserved;
    NothingYet(cfg);
    assert INITIAL.accepted[0..] == [] && INITIAL.kept[0..] == [];
  }

  lemma NothingYet(cfg: Config)
    ensures Survivors([], []) == [] && Lost([]) == 0 && Conserved(cfg, NO_STATS, 0)
  {
  }

  lemma StateAfterThen(cfg: Config, tolerance: int, prev: Run, step: Step)
    requires cfg.batchSize > 0 && cfg.maxPendingEvents > 0
    ensures StateAfter(cfg, tolerance, Then(prev, step)) ==
            Next(cfg, tolerance, StateAfter(cfg, tolerance, prev), step)
  {
    hide Next, Inv;
  }

  /** An outage that never overflows the buffer loses nothing. */
  lemma NoDropsNoLoss(cfg: Config, tolerance: int, run: Run)
    requires cfg.batchSize > 0 && cfg.maxPendingEvents > 0
    ensures var s := StateAfter(cfg, tolerance, run);
            s.stats.dropped == 0 <==> s.published + s.batch == s.accepted
  {
    hide StateAfter;
    var s := StateAfter(cfg, tolerance, run);
    SurvivorsAll(s.accepted, s.kept);
    assert |s.published + s.batch| == |s.accepted| - s.stats.dropped;
  }

  /** Once the broker is back, one tick publishes every survivor and loses nothing more. */
  lemma RecoveryDeliversAll(cfg: Config, tolerance: int, run: Run)
    requires cfg.batchSize > 0 && cfg.maxPendingEvents > 0
    ensures var s := StateAfter(cfg, tolerance, run);
            var s' := StateAfter(cfg, tolerance, Then(Then(run, SetFailing(false)), Tick));
            && s'.batch == []
            && s'.published == Survivors(s.accepted, s.kept)
            && s'.stats.dropped == s.stats.dropped
  {
    hide StateAfter, Inv;
    var s := StateAfter(cfg, tolerance, run);
    StateAfterThen(cfg, tolerance, run, SetFailing(false));
    StateAfterThen(cfg, tolerance, Then(run, SetFailing(false)), Tick);
    assert s.published + [] == s.published;
    assert Survivors(s.accepted, s.kept) == s.published + s.batch by { SurvivorsOf(cfg, s); }
  }

  lemma SurvivorsOf(cfg: Config, s: State)
    requires Inv(cfg, s)
    ensures Survivors(s.accepted, s.kept) == s.published + s.batch
  {
  }

  /** A failed flush drops only the oldest pending messages, and only those that do
      not fit; a successful one drops none. */
  lemma FlushDropsOldestOnly(cfg: Config, s: State)
    requires Sized(s) && cfg.maxPendingEvents >= 0
    ensures var s' := Flush(cfg, s);
            if s.failing then
              && s'.published == s.published
              && |s'.batch| == Min(|s.batch|, cfg.maxPendingEvents)
              && s'.batch == s.batch[|s.batch| - |s'.batch|..]
              && s'.stats.dropped - s.stats.dropped == |s.batch| - |s'.batch|
              && s'.stats.publishFailures - s.stats.publishFailures == (if s.batch == [] then 0 else 1)
            else
              && s'.published == s.published + s.batch && s'.batch == []
              && s'.stats.dropped == s.stats.dropped && s'.stats.publishFailures == s.stats.publishFailures
  {
    assert s.published + s.batch + [] == s.published + s.batch;
  }

  /** An arrival waits in the batch until it fills it: only then is anything flushed. */
  lemma ArrivalWaitsForFullBatch(cfg: Config, tolerance: int, s: State, ev: Event)
    requires Sized(s) && cfg.batchSize > 0 && cfg.maxPendingEvents >= 0
    ensures var s' := Next(cfg, tolerance, s, Arrive(ev));
            if s'.accepted == s.accepted then s'.batch == s.batch && s'.published == s.published
            else
              && s'.accepted == s.accepted + [s'.accepted[|s.accepted|]]
              && (|s.batch| + 1 < cfg.batchSize ==>
                    s'.published == s.published && s'.batch == s.batch + [s'.accepted[|s.accepted|]])
              && (|s.batch| + 1 >= cfg.batchSize && !s.failing ==>
                    s'.published == s.published + s.batch + [s'.accepted[|s.accepted|]] && s'.batch == [])
  {
    hide CheckSequence, Frame;
    var c := CheckSequence(cfg, tolerance, s.last, s.stats.(received := s.stats.received + 1), ev);
    if !c.drop && Frame(cfg, ev).Some? {
      var msg := Frame(cfg, ev).value;
      assert s.accepted + [msg] != s.accepted by { assert |s.accepted + [msg]| == |s.accepted| + 1; }
      assert s.published + (s.batch + [msg]) == s.published + s.batch + [msg];
    }
  }

  // ---- Which events are accepted, in terms of the detector's own runs ----

  ghost function TraceStep(cfg: Config, tolerance: int, t: Trace, step: Step): Trace {
    match step
    case Arrive(ev) =>
      var key := SequenceKey(cfg, ev);
      var observed := Observed(t, key, ev.sequence);
      if Verdict(LastAfter(t, tolerance), tolerance, key, ev.sequence).NeedsResync() && cfg.onResync.ForgetStream?
      then Trace.Reset(observed, key) else observed
    case Reconnect(v) => Trace.ResetVenue(t, v)
    case _ => t
  }

  /** What one step admits: a framed arrival unless it is a duplicate (or, by
      configuration, gapped). */
  ghost function Admits(cfg: Config, tolerance: int, t: Trace, step: Step): seq<Message> {
    match step
    case Arrive(ev) =>
      var r := Verdict(LastAfter(t, tolerance), tolerance, SequenceKey(cfg, ev), ev.sequence);
      if r.status.Duplicate? || (r.NeedsResync() && cfg.dropOnGap) || Frame(cfg, ev).None? then []
      else [Frame(cfg, ev).value]
    case _ => []
  }

  ghost function TraceOf(cfg: Config, tolerance: int, run: Run): Trace {
    match run
    case Begin => Fresh
    case Then(prev, step) => TraceStep(cfg, tolerance, TraceOf(cfg, tolerance, prev), step)
  }

  ghost function Admitted(cfg: Config, tolerance: int, run: Run): seq<Message> {
    match run
    case Begin => []
    case Then(prev, step) =>
      Admitted(cfg, tolerance, prev) + Admits(cfg, tolerance, TraceOf(cfg, tolerance, prev), step)
  }

  lemma FlushLeaves(cfg: Config, s: State)
    requires Sized(s) && cfg.maxPendingEvents >= 0
    ensures Flush(cfg, s).last == s.last && Flush(cfg, s).accepted == s.accepted
    ensures Judged(Flush(cfg, s).stats) == Judged(s.stats)
  {
  }

  /** The counters of the continuity check. */
  function Judged(stats: Stats): Tally { Tally(stats.duplicates, stats.gaps, stats.missed) }

  lemma NextAdmits(cfg: Config, tolerance: int, s: State, t: Trace, step: Step)
    requires Sized(s) && cfg.maxPendingEvents >= 0 && s.last == LastAfter(t, tolerance)
    requires Judged(s.stats) == TallyOf(t, tolerance)
    ensures Judged(Next(cfg, tolerance, s, step).stats) == TallyOf(TraceStep(cfg, tolerance, t, step), tolerance)
    ensures Next(cfg, tolerance, s, step).last == LastAfter(TraceStep(cfg, tolerance, t, step), tolerance)
    ensures Next(cfg, tolerance, s, step).accepted == s.accepted + Admits(cfg, tolerance, t, step)
  {
    hide Flush, LastAfter, TallyOf;
    match step {
      case Arrive(ev) =>
        var c := CheckSequence(cfg, tolerance, s.last, s.stats.(received := s.stats.received + 1), ev);
        LastAfterArrival(cfg, tolerance, t, ev, s.stats);
        if !c.drop && Frame(cfg, ev).Some? {
          var msg := Frame(cfg, ev).value;
          FlushLeaves(cfg, s.(last := c.last, stats := c.stats, batch := s.batch + [msg],
                              accepted := s.accepted + [msg], kept := s.kept + [true]));
        }
      case Tick => FlushLeaves(cfg, s);
      case SetFailing(_) =>
      case Reconnect(v) =>
        LastAfterReconnect(t, tolerance, v);
    }
  }

  /** Which messages the pipeline accepts, and what it counts as duplicate, gapped and
      missed, is decided by the detector's runs alone: batching, failures and drops play
      no part in it. */
  lemma {:induction false} AcceptedIsAdmitted(cfg: Config, tolerance: int, run: Run)
    requires cfg.batchSize > 0 && cfg.maxPendingEvents > 0
    ensures StateAfter(cfg, tolerance, run).last == LastAfter(TraceOf(cfg, tolerance, run), tolerance)
    ensures StateAfter(cfg, tolerance, run).accepted == Admitted(cfg, tolerance, run)
    ensures Judged(StateAfter(cfg, tolerance, run).stats) == TallyOf(TraceOf(cfg, tolerance, run), tolerance)
  {
    match run
    case Begin =>
    case Then(prev, step) =>
      AcceptedIsAdmitted(cfg, tolerance, prev);
      hide StateAfter, Next, LastAfter, TraceStep, Admits, Inv, TallyOf;
      StateAfterThen(cfg, tolerance, prev, step);
      NextAdmits(cfg, tolerance, StateAfter(cfg, tolerance, prev), TraceOf(cfg, tolerance, prev), step);
  }

  lemma LastAfterReconnect(t: Trace, tolerance: int, v: string)
    ensures LastAfter(Trace.ResetVenue(t, v), tolerance) == ForgetVenue(LastAfter(t, tolerance), v)
    ensures TallyOf(Trace.ResetVenue(t, v), tolerance) == TallyOf(t, tolerance)
  {
  }

  lemma LastAfterArrival(cfg: Config, tolerance: int, t: Trace, ev: Event, stats: Stats)
    ensures var key := SequenceKey(cfg, ev);
            var r := Verdict(LastAfter(t, tolerance), tolerance, key, ev.sequence);
            var observed := Observed(t, key, ev.sequence);
            CheckSequence(cfg, tolerance, LastAfter(t, tolerance), stats.(received := stats.received + 1), ev).last ==
            LastAfter(if r.NeedsResync() && cfg.onResync.ForgetStream? then Trace.Reset(observed, key) else observed,
                      tolerance)
    ensures var key := SequenceKey(cfg, ev);
            var observed := Observed(t, key, ev.sequence);
            Judged(stats) == TallyOf(t, tolerance) ==>
              && Judged(CheckSequence(cfg, tolerance, LastAfter(t, tolerance), stats.(received := stats.received + 1),
                                      ev).stats) == TallyOf(observed, tolerance)
              && TallyOf(Trace.Reset(observed, key), tolerance) == TallyOf(observed, tolerance)
  {
  }

  // ---- One symbol's order ----

  /** What one partition key sees of a log. */
  function ForSymbol(log: seq<Message>, symbol: string): seq<Message> {
    if log == [] then []
    else
      var n := |log| - 1;
      ForSymbol(log[..n], symbol) + if log[n].key == symbol then [log[n]] else []
  }

  function KeptFor(log: seq<Message>, kept: seq<bool>, symbol: string): seq<bool>
    requires |log| == |kept|
  {
    if log == [] then []
    else
      var n := |log| - 1;
      KeptFor(log[..n], kept[..n], symbol) + if log[n].key == symbol then [kept[n]] else []
  }

  /** What the arrivals of one symbol are admitted as, in arrival order. */
  ghost function AdmittedFor(cfg: Config, tolerance: int, run: Run, symbol: string): seq<Message> {
    match run
    case Begin => []
    case Then(prev, step) =>
      AdmittedFor(cfg, tolerance, prev, symbol) +
      if step.Arrive? && step.ev.symbol == symbol then Admits(cfg, tolerance, TraceOf(cfg, tolerance, prev), step)
      else []
  }

  lemma ForSymbolAppend(log: seq<Message>, msg: Message, symbol: string)
    ensures ForSymbol(log + [msg], symbol) ==
            if msg.key == symbol then ForSymbol(log, symbol) + [msg] else ForSymbol(log, symbol)
    ensures ForSymbol(log + [], symbol) == ForSymbol(log, symbol)
  {
    assert (log + [msg])[..|log|] == log && log + [] == log;
  }

  lemma {:induction false} AdmittedForSymbol(cfg: Config, tolerance: int, run: Run, symbol: string)
    ensures ForSymbol(Admitted(cfg, tolerance, run), symbol) == AdmittedFor(cfg, tolerance, run, symbol)
  {
    match run
    case Begin =>
    case Then(prev, step) =>
      AdmittedForSymbol(cfg, tolerance, prev, symbol);
      hide ForSymbol, TraceOf, LastAfter, Verdict;
      var log, more := Admitted(cfg, tolerance, prev), Admits(cfg, tolerance, TraceOf(cfg, tolerance, prev), step);
      assert more == [] || more == [more[0]];
      ForSymbolAppend(log, if more == [] then Message("", "", "", 0, "", OtherKind) else more[0], symbol);
  }

  lemma {:induction false} SurvivorsForSymbol(log: seq<Message>, kept: seq<bool>, symbol: string)
    requires |log| == |kept|
    ensures |ForSymbol(log, symbol)| == |KeptFor(log, kept, symbol)|
    ensures ForSymbol(Survivors(log, kept), symbol) ==
            Survivors(ForSymbol(log, symbol), KeptFor(log, kept, symbol))
  {
    if log != [] {
      var n := |log| - 1;
      var mine, flags := ForSymbol(log[..n], symbol), KeptFor(log[..n], kept[..n], symbol);
      SurvivorsForSymbol(log[..n], kept[..n], symbol);
      ForSymbolAppend(Survivors(log[..n], kept[..n]), log[n], symbol);
      SurvivorAppend(mine, flags, log[n], kept[n]);
      assert Survivors(log[..n], kept[..n]) + [] == Survivors(log[..n], kept[..n]);
      assert mine + [] == mine && flags + [] == flags;
    }
  }

  lemma SurvivorAppend(log: seq<Message>, kept: seq<bool>, msg: Message, keep: bool)
    requires |log| == |kept|
    ensures Survivors(log + [msg], kept + [keep]) ==
            if keep then Survivors(log, kept) + [msg] else Survivors(log, kept)
  {
    assert (log + [msg])[..|log|] == log && (kept + [keep])[..|kept|] == kept;
  }

  /** Each symbol keeps its order across batches, failures, retries and reconnects:
      what its partition key was published as, followed by what is pending for it, is
      what its own arrivals were admitted as, in arrival order, without exactly those
      of them that were dropped; without drops it is all of them. */
  lemma SymbolOrderIsKept(cfg: Config, tolerance: int, run: Run, symbol: string)
    requires cfg.batchSize > 0 && cfg.maxPendingEvents > 0
    ensures var s := StateAfter(cfg, tolerance, run);
            var mine, kept := AdmittedFor(cfg, tolerance, run, symbol), KeptFor(s.accepted, s.kept, symbol);
            && |mine| == |kept|
            && ForSymbol(s.published + s.batch, symbol) == Survivors(mine, kept)
            && (s.stats.dropped == 0 ==> ForSymbol(s.published + s.batch, symbol) == mine)
  {
    hide StateAfter, Inv, Admitted, AdmittedFor, ForSymbol, KeptFor, Survivors;
    var s := StateAfter(cfg, tolerance, run);
    AcceptedIsAdmitted(cfg, tolerance, run);
    AdmittedForSymbol(cfg, tolerance, run, symbol);
    SurvivorsForSymbol(s.accepted, s.kept, symbol);
    SurvivorsOf(cfg, s);
    NoDropsNoLoss(cfg, tolerance, run);
  }

  // ---- Where a published message comes from ----

  /** A message is one arrival's: its kind's topic, its symbol as key, the encoder's output
      as value, its own event time, venue and kind. */
  ghost predicate Carries(cfg: Config, msg: Message, ev: Event) {
    && ev.kind in cfg.encoders && ev.kind in cfg.topics && msg.topic == cfg.topics[ev.kind]
    && msg.key == ev.symbol && msg.venue == ev.venue && msg.kind == ev.kind
    && ev.payload.Some? && ev.payload.value.value == Some(msg.value) && msg.timeUs == ev.payload.value.eventTimeUs
  }

  function Arrivals(run: Run): seq<Event> {
    match run
    case Begin => []
    case Then(prev, Arrive(ev)) => Arrivals(prev) + [ev]
    case Then(prev, _) => Arrivals(prev)
  }

  ghost predicate CarriesArrival(cfg: Config, msg: Message, arrivals: seq<Event>) {
    exists ev :: ev in arrivals && Carries(cfg, msg, ev)
  }

  /** An event is framed exactly when its kind has an encoder and a topic, it has a
      payload, and the encoder takes it. */
  lemma FrameCarries(cfg: Config, ev: Event)
    ensures Frame(cfg, ev).Some? <==> exists msg :: Carries(cfg, msg, ev)
    ensures Frame(cfg, ev).Some? ==> Carries(cfg, Frame(cfg, ev).value, ev)
  {
    if Frame(cfg, ev).Some? { assert Carries(cfg, Frame(cfg, ev).value, ev); }
  }

  lemma {:induction false} AdmittedCarry(cfg: Config, tolerance: int, run: Run)
    ensures forall msg :: msg in Admitted(cfg, tolerance, run) ==> CarriesArrival(cfg, msg, Arrivals(run))
  {
    match run
    case Begin =>
    case Then(prev, step) =>
      hide Frame, Carries, TraceOf, LastAfter, Verdict;
      AdmittedCarry(cfg, tolerance, prev);
      forall msg | msg in Admitted(cfg, tolerance, run) ensures CarriesArrival(cfg, msg, Arrivals(run)) {
        if msg in Admitted(cfg, tolerance, prev) {
          var ev :| ev in Arrivals(prev) && Carries(cfg, msg, ev);
          assert ev in Arrivals(run);
        } else {
          FrameCarries(cfg, step.ev);
          assert step.ev in Arrivals(run) && Carries(cfg, msg, step.ev);
        }
      }
  }

  lemma {:induction false} SurvivorsAreMembers(log: seq<Message>, kept: seq<bool>)
    requires |log| == |kept|
    ensures forall msg :: msg in Survivors(log, kept) ==> msg in log
  {
    if log != [] {
      var n := |log| - 1;
      SurvivorsAreMembers(log[..n], kept[..n]);
      assert log == log[..n] + [log[n]];
    }
  }

  /** Whatever is published or pending in any run is some arrival, framed. */
  lemma PublishedCarryArrivals(cfg: Config, tolerance: int, run: Run)
    requires cfg.batchSize > 0 && cfg.maxPendingEvents > 0
    ensures var s := StateAfter(cfg, tolerance, run);
            forall msg :: msg in s.published + s.batch ==> CarriesArrival(cfg, msg, Arrivals(run))
  {
    hide StateAfter, Inv, Admitted, Survivors, CarriesArrival;
    var s := StateAfter(cfg, tolerance, run);
    AcceptedIsAdmitted(cfg, tolerance, run);
    AdmittedCarry(cfg, tolerance, run);
    SurvivorsOf(cfg, s);
    SurvivorsAreMembers(s.accepted, s.kept);
  }

  // ---- Symbols of an unscoped venue do not disturb each other ----

  /** The run without what arrives from one venue for any other symbol. */
  function WithoutOthers(run: Run, venue: string, symbol: string): Run {
    match run
    case Begin => Begin
    case Then(prev, step) =>
      if step.Arrive? && step.ev.venue == venue && step.ev.symbol != symbol then WithoutOthers(prev, venue, symbol)
      else Then(WithoutOthers(prev, venue, symbol), step)
  }

  /** What the arrivals of one symbol of one venue are admitted as. */
  ghost function AdmittedFrom(cfg: Config, tolerance: int, run: Run, venue: string, symbol: string): seq<Message> {
    match run
    case Begin => []
    case Then(prev, step) =>
      AdmittedFrom(cfg, tolerance, prev, venue, symbol) +
      if step.Arrive? && step.ev.venue == venue && step.ev.symbol == symbol
      then Admits(cfg, tolerance, TraceOf(cfg, tolerance, prev), step) else []
  }

  /** Two memories agree on everything but other symbols of one venue. */
  ghost predicate AgreeBut(a: Last, b: Last, venue: string, symbol: string) {
    forall k: Key :: k.venue != venue || k.symbol == symbol ==> (k in a <==> k in b) && (k in a ==> a[k] == b[k])
  }

  ghost function SettledBy(cfg: Config, tolerance: int, last: Last, step: Step): Last {
    match step
    case Arrive(ev) => Settle(cfg.onResync, last, tolerance, SequenceKey(cfg, ev), ev.sequence)
    case Reconnect(v) => ForgetVenue(last, v)
    case _ => last
  }

  lemma TraceSettles(cfg: Config, tolerance: int, t: Trace, step: Step)
    ensures LastAfter(TraceStep(cfg, tolerance, t, step), tolerance) ==
            SettledBy(cfg, tolerance, LastAfter(t, tolerance), step)
  {
  }

  lemma OtherSymbolSettles(
      cfg: Config, tolerance: int, a: Last, b: Last, ev: Event, venue: string, symbol: string)
    requires AgreeBut(a, b, venue, symbol) && venue !in cfg.connectionScoped
    requires ev.venue == venue && ev.symbol != symbol
    ensures AgreeBut(Settle(cfg.onResync, a, tolerance, SequenceKey(cfg, ev), ev.sequence), b, venue, symbol)
  {
    var key := SequenceKey(cfg, ev);
    assert key.venue == venue && key.symbol == ev.symbol;
    hide Settle, SequenceKey;
    forall k: Key | k.venue != venue || k.symbol == symbol
      ensures var after := Settle(cfg.onResync, a, tolerance, key, ev.sequence);
              (k in after <==> k in b) && (k in after ==> after[k] == b[k])
    {
      SettleElsewhere(cfg.onResync, a, tolerance, key, ev.sequence, k);
    }
  }

  lemma KeptSettles(cfg: Config, tolerance: int, a: Last, b: Last, ev: Event, venue: string, symbol: string)
    requires AgreeBut(a, b, venue, symbol) && venue !in cfg.connectionScoped
    requires ev.venue != venue || ev.symbol == symbol
    ensures AgreeBut(Settle(cfg.onResync, a, tolerance, SequenceKey(cfg, ev), ev.sequence),
                     Settle(cfg.onResync, b, tolerance, SequenceKey(cfg, ev), ev.sequence), venue, symbol)
    ensures Verdict(a, tolerance, SequenceKey(cfg, ev), ev.sequence) ==
            Verdict(b, tolerance, SequenceKey(cfg, ev), ev.sequence)
  {
    var key := SequenceKey(cfg, ev);
    assert key.venue != venue || key.symbol == symbol;
    hide SequenceKey;
  }

  lemma ReconnectAgrees(a: Last, b: Last, v: string, venue: string, symbol: string)
    requires AgreeBut(a, b, venue, symbol)
    ensures AgreeBut(ForgetVenue(a, v), ForgetVenue(b, v), venue, symbol)
  {
  }

  /** On a venue that sequences each symbol on its own, what arrives for other symbols
      never changes which events of this one are admitted, or as what. */
  lemma {:induction false} OtherSymbolsDoNotMatter(
      cfg: Config, tolerance: int, run: Run, venue: string, symbol: string)
    requires venue !in cfg.connectionScoped
    ensures AdmittedFrom(cfg, tolerance, run, venue, symbol) ==
            AdmittedFrom(cfg, tolerance, WithoutOthers(run, venue, symbol), venue, symbol)
    ensures AgreeBut(LastAfter(TraceOf(cfg, tolerance, run), tolerance),
                     LastAfter(TraceOf(cfg, tolerance, WithoutOthers(run, venue, symbol)), tolerance), venue, symbol)
  {
    hide AgreeBut, Settle, Verdict, LastAfter, TraceStep, SequenceKey, Frame, ForgetVenue;
    match run
    case Begin => SameAgrees(LastAfter(Fresh, tolerance), venue, symbol);
    case Then(prev, step) =>
      var only := WithoutOthers(prev, venue, symbol);
      var t, u := TraceOf(cfg, tolerance, prev), TraceOf(cfg, tolerance, only);
      OtherSymbolsDoNotMatter(cfg, tolerance, prev, venue, symbol);
      TraceSettles(cfg, tolerance, t, step);
      TraceSettles(cfg, tolerance, u, step);
      match step {
        case Arrive(ev) =>
          if ev.venue == venue && ev.symbol != symbol {
            OtherSymbolSettles(cfg, tolerance, LastAfter(t, tolerance), LastAfter(u, tolerance), ev, venue, symbol);
            var mine := AdmittedFrom(cfg, tolerance, prev, venue, symbol);
            assert mine + [] == mine;
          } else {
            KeptSettles(cfg, tolerance, LastAfter(t, tolerance), LastAfter(u, tolerance), ev, venue, symbol);
          }
        case Reconnect(v) => ReconnectAgrees(LastAfter(t, tolerance), LastAfter(u, tolerance), v, venue, symbol);
        case _ =>
      }
  }

  lemma SameAgrees(a: Last, venue: string, symbol: string)
    ensures AgreeBut(a, a, venue, symbol)
  {
  }

  // ---- The two resync policies ----

  function NumbersOf(events: seq<Event>): (ns: seq<int>)
    ensures |ns| == |events|
  {
    seq(|events|, i requires 0 <= i < |events| => events[i].sequence)
  }

  /** Events of one stream with rising numbers. */
  ghost predicate RisingStream(cfg: Config, k: Key, events: seq<Event>) {
    && (forall i :: 0 <= i < |events| ==> SequenceKey(cfg, events[i]) == k)
    && Rising(NumbersOf(events)) && NonNegative(NumbersOf(events))
  }

  lemma RisingStreamPrefix(cfg: Config, k: Key, events: seq<Event>)
    requires RisingStream(cfg, k, events) && events != []
    ensures RisingStream(cfg, k, events[..|events| - 1])
    ensures NumbersOf(events)[..|events| - 1] == NumbersOf(events[..|events| - 1])
    ensures var n, ns := |events| - 1, NumbersOf(events);
            SequenceKey(cfg, events[n]) == k && ns[n] == events[n].sequence >= 0 && (n > 0 ==> ns[n - 1] < ns[n])
    ensures LeftOut(NumbersOf(events)) == LeftOut(NumbersOf(events[..|events| - 1])) + Skipped(NumbersOf(events))
  {
    hide SequenceKey;
    var n := |events| - 1;
    var ns, init := NumbersOf(events), NumbersOf(events[..n]);
    assert ns[..n] == init;
    assert forall i :: 0 <= i < n ==> init[i] == ns[i];
  }

  /** The detector's memory of a rising stream. */
  ghost predicate Follows(onResync: OnResync, last: Last, k: Key, ns: seq<int>) {
    && (k in last <==> ns != [] && !(onResync.ForgetStream? && Reported(ns)))
    && (k in last ==> last[k] == ns[|ns| - 1])
  }

  lemma StepTally(cfg: Config, tolerance: int, k: Key, last: Last, stats: Stats, ev: Event, ns: seq<int>)
    requires ns != [] && SequenceKey(cfg, ev) == k && ns[|ns| - 1] == ev.sequence >= 0
    requires |ns| > 1 ==> ns[|ns| - 2] < ns[|ns| - 1]
    requires Follows(cfg.onResync, last, k, ns[..|ns| - 1])
    ensures var after := CheckSequence(cfg, tolerance, last, stats, ev);
            && Follows(cfg.onResync, after.last, k, ns)
            && after.stats.duplicates == stats.duplicates
            && after.stats.gaps - stats.gaps ==
               (if cfg.onResync.ForgetStream? then Reports(ns) - Reports(ns[..|ns| - 1])
                else Jumps(ns) - Jumps(ns[..|ns| - 1]))
            && after.stats.missed - stats.missed ==
               if cfg.onResync.ForgetStream? && !Reported(ns) then 0 else Skipped(ns)
    ensures !Verdict(last, tolerance, k, ev.sequence).status.Regression?
  {
    hide SequenceKey;
  }

  lemma {:induction false} StreamTally(cfg: Config, tolerance: int, k: Key, c: Checked, events: seq<Event>)
    requires RisingStream(cfg, k, events) && k !in c.last
    ensures var ns, after := NumbersOf(events), CheckAll(cfg, tolerance, c, events);
            && after.stats.duplicates == c.stats.duplicates
            && after.stats.gaps - c.stats.gaps == (if cfg.onResync.ForgetStream? then Reports(ns) else Jumps(ns))
            && after.stats.missed - c.stats.missed ==
               (if cfg.onResync.ForgetStream? then ReportedMissing(ns) else LeftOut(ns))
            && Follows(cfg.onResync, after.last, k, ns)
  {
    if events != [] {
      hide RisingStream, LeftOut, Follows, CheckSequence, Skipped, Reported, SequenceKey, Jumps, Reports;
      var n := |events| - 1;
      var before := CheckAll(cfg, tolerance, c, events[..n]);
      RisingStreamPrefix(cfg, k, events);
      StreamTally(cfg, tolerance, k, c, events[..n]);
      StepTally(cfg, tolerance, k, before.last, before.stats, events[n], NumbersOf(events));
    }
  }

  /** What is reported missing of a rising stream, from wherever the other streams
      stand. Without a hook it is every number left out between the first and the last.
      With the wired hook, which forgets the stream at each gap, it is never more, and
      it is all of them exactly when no two consecutive events both skip some. The gaps
      counted are the events that skip some, with the hook those of them that follow a
      remembered one. Either way no event is a duplicate. */
  lemma MissedIsExactIff(cfg: Config, tolerance: int, k: Key, c: Checked, events: seq<Event>)
    requires RisingStream(cfg, k, events) && k !in c.last && events != []
    ensures var ns, after := NumbersOf(events), CheckAll(cfg, tolerance, c, events);
            var missed, out := after.stats.missed - c.stats.missed, ns[|ns| - 1] - ns[0] + 1 - |ns|;
            && after.stats.duplicates == c.stats.duplicates
            && after.stats.gaps - c.stats.gaps == (if cfg.onResync.ForgetStream? then Reports(ns) else Jumps(ns))
            && 0 <= missed <= out
            && (cfg.onResync.Ignore? ==> missed == out)
            && (cfg.onResync.ForgetStream? ==> (missed == out <==> NeverJumpsTwice(ns)))
  {
    hide CheckAll, NeverJumpsTwice, Reported, Follows, Jumps, Reports;
    StreamTally(cfg, tolerance, k, c, events);
    ForgettingUndercounts(NumbersOf(events));
  }

  // ---- The missed counter over interleaved streams ----

  /** A stream's sequenced numbers since its venue last reconnected. */
  ghost function EpochOf(cfg: Config, run: Run, k: Key): seq<int> {
    match run
    case Begin => []
    case Then(prev, Arrive(ev)) =>
      if SequenceKey(cfg, ev) == k && ev.sequence >= 0 then EpochOf(cfg, prev, k) + [ev.sequence]
      else EpochOf(cfg, prev, k)
    case Then(prev, Reconnect(v)) => if k.venue == v then [] else EpochOf(cfg, prev, k)
    case Then(prev, _) => EpochOf(cfg, prev, k)
  }

  /** What is reported missing of rising numbers. */
  function MissedIn(cfg: Config, ns: seq<int>): int {
    if cfg.onResync.ForgetStream? then ReportedMissing(ns) else LeftOut(ns)
  }

  /** The same over the epochs that reconnects have ended. */
  ghost function MissedBefore(cfg: Config, run: Run, k: Key): int {
    match run
    case Begin => 0
    case Then(prev, Reconnect(v)) =>
      MissedBefore(cfg, prev, k) + if k.venue == v then MissedIn(cfg, EpochOf(cfg, prev, k)) else 0
    case Then(prev, _) => MissedBefore(cfg, prev, k)
  }

  ghost function MissedOf(cfg: Config, run: Run, k: Key): int {
    MissedBefore(cfg, run, k) + MissedIn(cfg, EpochOf(cfg, run, k))
  }

  function StreamsOf(cfg: Config, run: Run): set<Key> {
    match run
    case Begin => {}
    case Then(prev, Arrive(ev)) => StreamsOf(cfg, prev) + {SequenceKey(cfg, ev)}
    case Then(prev, _) => StreamsOf(cfg, prev)
  }

  /** Between reconnects every stream's sequenced numbers rise. */
  ghost predicate RisesPerStream(cfg: Config, run: Run) {
    match run
    case Begin => true
    case Then(prev, Arrive(ev)) =>
      var ns := EpochOf(cfg, prev, SequenceKey(cfg, ev));
      RisesPerStream(cfg, prev) && (ev.sequence >= 0 && ns != [] ==> ns[|ns| - 1] < ev.sequence)
    case Then(prev, _) => RisesPerStream(cfg, prev)
  }

  ghost function SumMissed(cfg: Config, run: Run, keys: set<Key>): int
    decreases |keys|
  {
    if keys == {} then 0
    else
      var k :| k in keys;
      MissedOf(cfg, run, k) + SumMissed(cfg, run, keys - {k})
  }

  lemma {:induction false} SumSplits(cfg: Config, run: Run, keys: set<Key>, k: Key)
    requires k in keys
    ensures SumMissed(cfg, run, keys) == MissedOf(cfg, run, k) + SumMissed(cfg, run, keys - {k})
    decreases |keys|
  {
    hide MissedOf;
    var j :| j in keys && SumMissed(cfg, run, keys) == MissedOf(cfg, run, j) + SumMissed(cfg, run, keys - {j});
    if j != k {
      assert (keys - {j}) - {k} == (keys - {k}) - {j};
      SumSplits(cfg, run, keys - {j}, k);
      SumSplits(cfg, run, keys - {k}, j);
    }
  }

  lemma {:induction false} SumSame(cfg: Config, r: Run, q: Run, keys: set<Key>)
    requires forall k :: k in keys ==> MissedOf(cfg, r, k) == MissedOf(cfg, q, k)
    ensures SumMissed(cfg, r, keys) == SumMissed(cfg, q, keys)
    decreases |keys|
  {
    hide MissedOf;
    if keys != {} {
      var k :| k in keys;
      SumSplits(cfg, r, keys, k);
      SumSplits(cfg, q, keys, k);
      SumSame(cfg, r, q, keys - {k});
    }
  }

  lemma SettleElsewhere(onResync: OnResync, last: Last, tolerance: int, k: Key, number: int, j: Key)
    requires j != k || number < 0
    ensures var after := Settle(onResync, last, tolerance, k, number);
            (j in after <==> j in last) && (j in after ==> after[j] == last[j])
  {
  }

  lemma CheckSettles(cfg: Config, tolerance: int, last: Last, stats: Stats, ev: Event)
    ensures var c := CheckSequence(cfg, tolerance, last, stats, ev);
            && c.last == Settle(cfg.onResync, last, tolerance, SequenceKey(cfg, ev), ev.sequence)
            && (ev.sequence < 0 ==> Judged(c.stats) == Judged(stats))
  {
  }

  /** A step leaves the detector and its counters where the check leaves them. */
  lemma ArrivalIsChecked(cfg: Config, tolerance: int, s: State, ev: Event)
    requires Sized(s) && cfg.maxPendingEvents >= 0
    ensures var c := CheckSequence(cfg, tolerance, s.last, s.stats.(received := s.stats.received + 1), ev);
            var s' := Next(cfg, tolerance, s, Arrive(ev));
            s'.last == c.last && Judged(s'.stats) == Judged(c.stats)
  {
    hide Flush, CheckSequence;
    var c := CheckSequence(cfg, tolerance, s.last, s.stats.(received := s.stats.received + 1), ev);
    if !c.drop && Frame(cfg, ev).Some? {
      FlushLeaves(cfg, s.(last := c.last, stats := c.stats, batch := s.batch + [Frame(cfg, ev).value],
                          accepted := s.accepted + [Frame(cfg, ev).value], kept := s.kept + [true]));
    }
  }

  lemma OthersAreLeft(cfg: Config, tolerance: int, s: State, step: Step)
    requires Sized(s) && cfg.maxPendingEvents >= 0 && !step.Arrive?
    ensures var s' := Next(cfg, tolerance, s, step);
            && Judged(s'.stats) == Judged(s.stats)
            && s'.last == if step.Reconnect? then ForgetVenue(s.last, step.venue) else s.last
  {
    hide Flush;
    if step.Tick? { FlushLeaves(cfg, s); }
  }

  lemma MissedGrows(cfg: Config, ns: seq<int>, n: int)
    ensures MissedIn(cfg, ns + [n]) - MissedIn(cfg, ns) ==
            if cfg.onResync.ForgetStream? && !Reported(ns + [n]) then 0 else Skipped(ns + [n])
  {
    assert (ns + [n])[..|ns|] == ns;
  }

  /** What one arrival does to its own stream. */
  lemma ArrivalTally(cfg: Config, tolerance: int, last: Last, stats: Stats, ev: Event, ns: seq<int>)
    requires ev.sequence >= 0 && (ns != [] ==> ns[|ns| - 1] < ev.sequence)
    requires Follows(cfg.onResync, last, SequenceKey(cfg, ev), ns)
    ensures var c := CheckSequence(cfg, tolerance, last, stats, ev);
            && Follows(cfg.onResync, c.last, SequenceKey(cfg, ev), ns + [ev.sequence])
            && c.stats.duplicates == stats.duplicates
            && c.stats.missed - stats.missed == MissedIn(cfg, ns + [ev.sequence]) - MissedIn(cfg, ns)
  {
    hide CheckSequence, Follows, MissedIn, Reported, Skipped, Jumps, Reports;
    assert (ns + [ev.sequence])[..|ns|] == ns;
    MissedGrows(cfg, ns, ev.sequence);
    StepTally(cfg, tolerance, SequenceKey(cfg, ev), last, stats, ev, ns + [ev.sequence]);
  }

  /** The detector follows every stream at once. */
  ghost predicate FollowsAll(cfg: Config, last: Last, run: Run) {
    forall k :: Follows(cfg.onResync, last, k, EpochOf(cfg, run, k))
  }

  lemma ArrivalFollows(cfg: Config, tolerance: int, prev: Run, last: Last, stats: Stats, ev: Event)
    requires RisesPerStream(cfg, Then(prev, Arrive(ev))) && FollowsAll(cfg, last, prev)
    ensures var run, c := Then(prev, Arrive(ev)), CheckSequence(cfg, tolerance, last, stats, ev);
            && FollowsAll(cfg, c.last, run)
            && c.stats.duplicates == stats.duplicates
            && var key := SequenceKey(cfg, ev);
               && c.stats.missed - stats.missed == MissedOf(cfg, run, key) - MissedOf(cfg, prev, key)
               && forall k :: k != key ==> MissedOf(cfg, run, k) == MissedOf(cfg, prev, k)
  {
    hide CheckSequence, MissedIn, Settle;
    var run, key, c := Then(prev, Arrive(ev)), SequenceKey(cfg, ev), CheckSequence(cfg, tolerance, last, stats, ev);
    CheckSettles(cfg, tolerance, last, stats, ev);
    assert Follows(cfg.onResync, last, key, EpochOf(cfg, prev, key));
    if ev.sequence >= 0 {
      ArrivalTally(cfg, tolerance, last, stats, ev, EpochOf(cfg, prev, key));
    }
    forall k ensures Follows(cfg.onResync, c.last, k, EpochOf(cfg, run, k)) {
      assert Follows(cfg.onResync, last, k, EpochOf(cfg, prev, k));
      if k != key || ev.sequence < 0 {
        SettleElsewhere(cfg.onResync, last, tolerance, key, ev.sequence, k);
      }
    }
  }

  lemma ReconnectFollows(cfg: Config, prev: Run, last: Last, v: string)
    requires FollowsAll(cfg, last, prev)
    ensures FollowsAll(cfg, ForgetVenue(last, v), Then(prev, Reconnect(v)))
    ensures forall k :: MissedOf(cfg, Then(prev, Reconnect(v)), k) == MissedOf(cfg, prev, k)
  {
    var run := Then(prev, Reconnect(v));
    forall k
      ensures Follows(cfg.onResync, ForgetVenue(last, v), k, EpochOf(cfg, run, k))
      ensures MissedOf(cfg, run, k) == MissedOf(cfg, prev, k)
    {
      assert Follows(cfg.onResync, last, k, EpochOf(cfg, prev, k));
    }
  }

  lemma ArrivalSums(cfg: Config, prev: Run, ev: Event, keys: set<Key>)
    requires SequenceKey(cfg, ev) in keys
    requires forall k :: k != SequenceKey(cfg, ev) ==>
               MissedOf(cfg, Then(prev, Arrive(ev)), k) == MissedOf(cfg, prev, k)
    ensures var run, key := Then(prev, Arrive(ev)), SequenceKey(cfg, ev);
            SumMissed(cfg, run, keys) - SumMissed(cfg, prev, keys) ==
            MissedOf(cfg, run, key) - MissedOf(cfg, prev, key)
  {
    hide MissedOf;
    var run, key := Then(prev, Arrive(ev)), SequenceKey(cfg, ev);
    SumSplits(cfg, run, keys, key);
    SumSplits(cfg, prev, keys, key);
    SumSame(cfg, run, prev, keys - {key});
  }

  /** In every run, whatever the interleaving of streams, batches, failures and
      reconnects, as long as each stream's sequenced numbers rise between reconnects:
      nothing is a duplicate, and the missed counter is the sum over the streams, epoch
      by epoch, of what is reported missing of each alone. */
  lemma {:induction false} MissedIsSumOverStreams(cfg: Config, tolerance: int, run: Run, keys: set<Key>)
    requires cfg.batchSize > 0 && cfg.maxPendingEvents > 0
    requires RisesPerStream(cfg, run) && StreamsOf(cfg, run) <= keys
    ensures var s := StateAfter(cfg, tolerance, run);
            && s.stats.duplicates == 0
            && s.stats.missed == SumMissed(cfg, run, keys)
            && FollowsAll(cfg, s.last, run)
  {
    hide Next, Inv, FollowsAll, MissedOf, SumMissed, CheckSequence, ForgetVenue;
    match run
    case Begin => NothingMissedYet(cfg, tolerance, keys);
    case Then(prev, step) =>
      var s := StateAfter(cfg, tolerance, prev);
      MissedIsSumOverStreams(cfg, tolerance, prev, keys);
      StateAfterThen(cfg, tolerance, prev, step);
      match step {
        case Arrive(ev) =>
          ArrivalIsChecked(cfg, tolerance, s, ev);
          ArrivalFollows(cfg, tolerance, prev, s.last, s.stats.(received := s.stats.received + 1), ev);
          ArrivalSums(cfg, prev, ev, keys);
        case Reconnect(v) =>
          OthersAreLeft(cfg, tolerance, s, step);
          ReconnectFollows(cfg, prev, s.last, v);
          SumSame(cfg, run, prev, keys);
        case _ =>
          OthersAreLeft(cfg, tolerance, s, step);
          QuietStep(cfg, prev, step, s.last);
          SumSame(cfg, run, prev, keys);
      }
  }

  lemma QuietStep(cfg: Config, prev: Run, step: Step, last: Last)
    requires !step.Arrive? && !step.Reconnect? && FollowsAll(cfg, last, prev)
    ensures FollowsAll(cfg, last, Then(prev, step))
    ensures forall k :: MissedOf(cfg, Then(prev, step), k) == MissedOf(cfg, prev, k)
  {
    assert forall k :: EpochOf(cfg, Then(prev, step), k) == EpochOf(cfg, prev, k);
  }

  lemma {:induction false} NothingMissedYet(cfg: Config, tolerance: int, keys: set<Key>)
    requires cfg.batchSize > 0 && cfg.maxPendingEvents > 0
    ensures StateAfter(cfg, tolerance, Begin) == INITIAL
    ensures SumMissed(cfg, Begin, keys) == 0 && FollowsAll(cfg, map[], Begin)
    decreases |keys|
  {
    hide Inv;
    if keys != {} {
      var k :| k in keys;
      SumSplits(cfg, Begin, keys, k);
      NothingMissedYet(cfg, tolerance, keys - {k});
    }
  }

  lemma {:induction false} EpochRises(cfg: Config, run: Run, k: Key)
    requires RisesPerStream(cfg, run)
    ensures Rising(EpochOf(cfg, run, k)) && NonNegative(EpochOf(cfg, run, k))
  {
    match run
    case Begin =>
    case Then(prev, step) =>
      hide SequenceKey;
      EpochRises(cfg, prev, k);
  }

  /** Every number a stream left out, epoch by epoch. */
  ghost function LeftOutBefore(cfg: Config, run: Run, k: Key): int {
    match run
    case Begin => 0
    case Then(prev, Reconnect(v)) =>
      LeftOutBefore(cfg, prev, k) + if k.venue == v then LeftOut(EpochOf(cfg, prev, k)) else 0
    case Then(prev, _) => LeftOutBefore(cfg, prev, k)
  }

  ghost predicate NoEpochJumpsTwice(cfg: Config, run: Run, k: Key) {
    NeverJumpsTwice(EpochOf(cfg, run, k)) && NoEpochJumpedTwice(cfg, run, k)
  }

  ghost predicate NoEpochJumpedTwice(cfg: Config, run: Run, k: Key) {
    match run
    case Begin => true
    case Then(prev, Reconnect(v)) =>
      NoEpochJumpedTwice(cfg, prev, k) && (k.venue == v ==> NeverJumpsTwice(EpochOf(cfg, prev, k)))
    case Then(prev, _) => NoEpochJumpedTwice(cfg, prev, k)
  }

  lemma EpochMissedIff(cfg: Config, ns: seq<int>)
    requires Rising(ns)
    ensures 0 <= MissedIn(cfg, ns) <= LeftOut(ns)
    ensures cfg.onResync.Ignore? ==> MissedIn(cfg, ns) == LeftOut(ns)
    ensures cfg.onResync.ForgetStream? ==> (MissedIn(cfg, ns) == LeftOut(ns) <==> NeverJumpsTwice(ns))
  {
    hide LeftOut, NeverJumpsTwice;
    ForgettingUndercounts(ns);
  }

  lemma {:induction false} MissedBeforeIff(cfg: Config, run: Run, k: Key)
    requires RisesPerStream(cfg, run)
    ensures 0 <= MissedBefore(cfg, run, k) <= LeftOutBefore(cfg, run, k)
    ensures cfg.onResync.Ignore? ==> MissedBefore(cfg, run, k) == LeftOutBefore(cfg, run, k)
    ensures cfg.onResync.ForgetStream? ==>
              (MissedBefore(cfg, run, k) == LeftOutBefore(cfg, run, k) <==> NoEpochJumpedTwice(cfg, run, k))
  {
    hide MissedIn, LeftOut, NeverJumpsTwice, EpochOf;
    match run
    case Begin =>
    case Then(prev, step) =>
      MissedBeforeIff(cfg, prev, k);
      EpochRises(cfg, prev, k);
      EpochMissedIff(cfg, EpochOf(cfg, prev, k));
  }

  /** Each term of that sum: without a hook every number its stream left out within an
      epoch; with the hook never more, and all of them exactly when in no epoch two
      consecutive numbers both skip some. */
  lemma StreamMissedIff(cfg: Config, run: Run, k: Key)
    requires RisesPerStream(cfg, run)
    ensures var out := LeftOutBefore(cfg, run, k) + LeftOut(EpochOf(cfg, run, k));
            && 0 <= MissedOf(cfg, run, k) <= out
            && (cfg.onResync.Ignore? ==> MissedOf(cfg, run, k) == out)
            && (cfg.onResync.ForgetStream? ==> (MissedOf(cfg, run, k) == out <==> NoEpochJumpsTwice(cfg, run, k)))
  {
    hide MissedIn, LeftOut, NeverJumpsTwice, EpochOf, MissedBefore, LeftOutBefore, NoEpochJumpedTwice;
    MissedBeforeIff(cfg, run, k);
    EpochRises(cfg, run, k);
    EpochMissedIff(cfg, EpochOf(cfg, run, k));
  }

  /** The smallest loss that goes unreported: two gaps in a row. */
  lemma ForgettingHidesTheNextLoss(tolerance: int, k: Key, a: nat, b: nat, c: nat)
    requires tolerance >= 0 && a + 1 < b && b + 1 < c
    ensures var seen := Observed(Observed(Fresh, k, a), k, b);
            && Verdict(LastAfter(Observed(Fresh, k, a), tolerance), tolerance, k, b).missing == b - a - 1
            && Verdict(LastAfter(seen, tolerance), tolerance, k, c).missing == c - b - 1 > 0
            && Verdict(LastAfter(Trace.Reset(seen, k), tolerance), tolerance, k, c).status == First
            && Verdict(LastAfter(Trace.Reset(seen, k), tolerance), tolerance, k, b).status == First
  {
  }

  // ---- The pipeline itself ----

  /** The in-memory producer: all or nothing. */
  class MemoryProducer {
    var messages: seq<Message>
    var closed: bool
    var failWith: bool

    constructor ()
      ensures messages == [] && !closed && !failWith
    {
      messages, closed, failWith := [], false, false;
    }

    method SetFailure(fail: bool)
      modifies this`failWith
      ensures failWith == fail
    {
      failWith := fail;
    }

    method Publish(msgs: seq<Message>) returns (failed: bool)
      modifies this`messages
      ensures failed == (closed || failWith)
      ensures messages == if failed then old(messages) else old(messages) + msgs
    {
      if closed || failWith {
        return true;
      }
      messages := messages + msgs;
      return false;
    }
  }

  /** How a run ends: the input closes, or the context is cancelled. */
  datatype Ending = InputClosed | Cancelled

  class Pipeline {
    var cfg: Config
    const detector: Detector
    const producer: MemoryProducer
    var batch: seq<Message>
    var stats: Stats
    ghost var accepted: seq<Message>
    ghost var kept: seq<bool>

    ghost predicate Ready()
      reads this, producer
    {
      cfg.batchSize > 0 && cfg.maxPendingEvents > 0 && !producer.closed
    }

    ghost function Abs(): State
      reads this, detector, producer
    {
      State(detector.last, batch, stats, producer.messages, producer.failWith, accepted, kept)
    }

    constructor (cfg: Config, tolerance: int)
      ensures this.cfg == cfg && Abs() == INITIAL && !producer.closed
      ensures fresh(detector) && fresh(producer) && detector.regressionTolerance == tolerance
    {
      this.cfg := cfg;
      detector := new Detector(tolerance);
      producer := new MemoryProducer();
      batch, stats, accepted, kept := [], NO_STATS, [], [];
    }

    method FlushBatch()
      requires Ready() && |batch| <= |accepted| == |kept|
      modifies this`batch, this`stats, this`kept, producer`messages
      ensures Abs() == Flush(cfg, old(Abs()))
    {
      if |batch| == 0 {
        return;
      }
      var failed := producer.Publish(batch);
      if failed {
        stats := stats.(publishFailures := stats.publishFailures + 1);
        if |batch| > cfg.maxPendingEvents {
          var dropped := |batch| - cfg.maxPendingEvents;
          kept := MarkDropped(kept, |accepted| - |batch|, dropped);
          batch := batch[dropped..];
          stats := stats.(dropped := stats.dropped + dropped);
        }
        return;
      }
      stats := stats.(published := stats.published + |batch|);
      batch := [];
    }

    method Check(ev: Event) returns (drop: bool)
      modifies this`stats, detector`last
      ensures Checked(drop, detector.last, stats) ==
              CheckSequence(cfg, detector.regressionTolerance, old(detector.last), old(stats), ev)
    {
      var key := SequenceKey(cfg, ev);
      var res := detector.Observe(key, ev.sequence);
      match res.status {
        case Duplicate =>
          stats := stats.(duplicates := stats.duplicates + 1);
          return true;
        case Gap | Regression =>
          stats := stats.(gaps := stats.gaps + 1, missed := stats.missed + res.missing);
          if cfg.onResync.ForgetStream? {
            detector.Reset(key);
          }
          return cfg.dropOnGap;
        case _ =>
          return false;
      }
    }

    method ReceiveEvent(ev: Event)
      requires Ready() && |batch| <= |accepted| == |kept|
      modifies this`batch, this`stats, this`accepted, this`kept, detector`last, producer`messages
      ensures Abs() == Receive(cfg, detector.regressionTolerance, old(Abs()), ev)
    {
      hide CheckSequence, Flush, Frame;
      stats := stats.(received := stats.received + 1);
      var drop := Check(ev);
      if drop {
        return;
      }
      var msg := Frame(cfg, ev);
      if msg.None? {
        stats := stats.(encodeErrs := stats.encodeErrs + 1);
        return;
      }
      batch, accepted, kept := batch + [msg.value], accepted + [msg.value], kept + [true];
      if |batch| >= cfg.batchSize {
        FlushBatch();
      }
    }

    /** Pumps a script of steps, then ends. What is left in the batch afterwards was
        neither published nor counted. */
    method RunScript(script: seq<Step>, ending: Ending) returns (final: Stats)
      requires Abs() == INITIAL && !producer.closed
      modifies this, detector, producer
      ensures cfg == old(cfg).Normalized()
      ensures var s := StateAfter(cfg, detector.regressionTolerance, RunOf(script));
              var published := if s.failing then s.published else s.published + s.batch;
              && producer.messages == published
              && final.published == |published|
              && final.received == s.stats.received && final.duplicates == s.stats.duplicates
              && final.encodeErrs == s.stats.encodeErrs && final.gaps == s.stats.gaps && final.missed == s.stats.missed
              && Conserved(cfg, final, |batch|)
              && (!s.failing ==> batch == [] && producer.messages == Survivors(s.accepted, s.kept))
              && (s.failing && ending.Cancelled? ==> batch == s.batch && final.dropped == s.stats.dropped)
    {
      hide StateAfter, Receive, Flush, Inv;
      cfg := cfg.Normalized();
      StartsEmpty(cfg, detector.regressionTolerance);
      var i := 0;
      while i < |script|
        invariant 0 <= i <= |script|
        invariant cfg == old(cfg).Normalized() && !producer.closed
        invariant Abs() == StateAfter(cfg, detector.regressionTolerance, RunOf(script[..i]))
      {
        assert script[..i + 1][..i] == script[..i];
        StateAfterThen(cfg, detector.regressionTolerance, RunOf(script[..i]), script[i]);
        match script[i] {
          case Arrive(ev) => ReceiveEvent(ev);
          case Tick => FlushBatch();
          case SetFailing(f) => producer.SetFailure(f);
          case Reconnect(v) => detector.ResetVenue(v);
        }
        i := i + 1;
      }
      assert script[..i] == script;
      ghost var s := Abs();
      FinishBalances(cfg, s);
      if ending.Cancelled? {
        var failed := producer.Publish(batch);
        if !failed {
          stats := stats.(published := stats.published + |batch|);
          batch := [];
        }
      } else {
        FlushBatch();
      }
      final := stats;
    }
  }

  lemma StartsEmpty(cfg: Config, tolerance: int)
    requires cfg.batchSize > 0 && cfg.maxPendingEvents > 0
    ensures StateAfter(cfg, tolerance, RunOf([])) == INITIAL
  {
  }

  lemma FinishBalances(cfg: Config, s: State)
    requires cfg.maxPendingEvents > 0 && Inv(cfg, s)
    ensures Conserved(cfg, s.stats, |s.batch|) && |s.published| == s.stats.published
    ensures Survivors(s.accepted, s.kept) == s.published + s.batch
    ensures var f := Flush(cfg, s);
            && f.published == (if s.failing then s.published else s.published + s.batch)
            && Conserved(cfg, f.stats, |f.batch|) && |f.published| == f.stats.published
            && (!s.failing ==> f.batch == [])
            && f.stats == s.stats.(published := f.stats.published, publishFailures := f.stats.publishFailures,
                                   dropped := f.stats.dropped)
  {
    FlushBalances(cfg, s);
  }

  function RunOf(script: seq<Step>): Run {
    if script == [] then Begin else Then(RunOf(script[..|script| - 1]), script[|script| - 1])
  }
}
