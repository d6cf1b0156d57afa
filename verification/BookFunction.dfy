/** The keyed operator around the book: deltas go in, and a timer that re-arms itself
    decides when a quote comes out. */
module BookOperator {
  import opened Events
  import opened OrderBooks
  import opened BookFidelity
  import opened SplitKey
  import opened Arithmetic

  datatype Config = Config(maxDepth: int, imbalanceDepth: int, emitIntervalMs: int) {
    predicate Valid() {
      maxDepth > 0 && imbalanceDepth > 0 && emitIntervalMs > 0
    }
  }

  datatype Emission = Emission(key: string, quote: Quote)

  /** Keyed state, pending timers, everything collected so far, and the counters. */
  datatype State = State(
    books: map<string, BookSnapshot>,
    lastEmitted: map<string, Quote>,
    timers: set<(string, int)>,
    out: seq<Emission>,
    crossedBooks: nat, snapshotsApplied: nat, quotesEmitted: nat, quotesSuppressed: nat)

  const INITIAL := State(map[], map[], {}, [], 0, 0, 0, 0)

  function DeltaKey(d: BookDelta): string { KeyOf(d.venue, d.symbol) }

  function NextTick(now: nat, interval: int): int
    requires interval > 0
  {
    (now / interval + 1) * interval
  }

  function BookAt(books: map<string, BookSnapshot>, key: string): OrderBook {
    if key in books then FromSnapshot(books[key]) else EMPTY_BOOK
  }

  /** A quote as last published, ignoring when it was emitted. */
  function Unstamped(q: Quote): Quote { q.(emitTimeUs := 0) }

  function AfterElement(cfg: Config, s: State, delta: BookDelta, now: nat): State
    requires cfg.Valid()
  {
    var key := DeltaKey(delta);
    var updated := BookAt(s.books, key).Apply(delta).Trim(cfg.maxDepth);
    s.(books := s.books[key := updated.ToSnapshot()],
       timers := s.timers + {(key, NextTick(now, cfg.emitIntervalMs))},
       crossedBooks := s.crossedBooks + if updated.IsCrossed() then 1 else 0,
       snapshotsApplied := s.snapshotsApplied + if delta.isSnapshot then 1 else 0)
  }

  /** The quote this key's book would serve now, if it may be served at all. */
  function Servable(cfg: Config, books: map<string, BookSnapshot>, key: string, wallMs: int): Option<Quote>
    requires cfg.Valid()
  {
    var book, parts := BookAt(books, key), Split(key);
    if key !in books || book.IsCrossed() || |parts| != 2 then None
    else
      match book.ToQuote(parts[0], parts[1], wallMs * 1000, cfg.imbalanceDepth)
      case None => None
      case Some(q) => if q.IsValid() then Some(q) else None
  }

  function AfterTimer(cfg: Config, s: State, key: string, timestamp: int, now: nat, wallMs: int): State
    requires cfg.Valid()
  {
    var armed := s.(timers := s.timers - {(key, timestamp)} + {(key, NextTick(now, cfg.emitIntervalMs))});
    match Servable(cfg, s.books, key, wallMs)
    case None =>
      if key in s.books && BookAt(s.books, key).IsCrossed()
      then armed.(quotesSuppressed := s.quotesSuppressed + 1) else armed
    case Some(q) =>
      if key in s.lastEmitted && Unstamped(s.lastEmitted[key]) == Unstamped(q)
      then armed.(quotesSuppressed := s.quotesSuppressed + 1)
      else armed.(lastEmitted := s.lastEmitted[key := q], out := s.out + [Emission(key, q)],
                  quotesEmitted := s.quotesEmitted + 1)
  }

  // ---- The operator itself ----

  class BookFunction {
    const cfg: Config
    var books: map<string, BookSnapshot>
    var lastEmitted: map<string, Quote>
    var timers: set<(string, int)>
    var out: seq<Emission>
    var crossedBooks: nat
    var snapshotsApplied: nat
    var quotesEmitted: nat
    var quotesSuppressed: nat

    ghost function Abs(): State
      reads this
    {
      State(books, lastEmitted, timers, out, crossedBooks, snapshotsApplied, quotesEmitted, quotesSuppressed)
    }

    constructor (cfg: Config)
      requires cfg.Valid()
      ensures this.cfg == cfg && Abs() == INITIAL
    {
      this.cfg := cfg;
      books, lastEmitted, timers, out := map[], map[], {}, [];
      crossedBooks, snapshotsApplied, quotesEmitted, quotesSuppressed := 0, 0, 0, 0;
    }

    method ArmTimer(key: string, now: nat)
      requires cfg.Valid()
      modifies this`timers
      ensures timers == old(timers) + {(key, NextTick(now, cfg.emitIntervalMs))}
    {
      var nextTick := (now / cfg.emitIntervalMs + 1) * cfg.emitIntervalMs;
      timers := timers + {(key, nextTick)};
    }

    method ProcessElement(delta: BookDelta, now: nat)
      requires cfg.Valid()
      modifies this
      ensures Abs() == AfterElement(cfg, old(Abs()), delta, now)
    {
      var key := DeltaKey(delta);
      var current := EMPTY_BOOK;
      if key in books {
        current := RebuildBook(books[key]);
      }
      if delta.isSnapshot {
        snapshotsApplied := snapshotsApplied + 1;
      }
      var updated := current.Apply(delta).Trim(cfg.maxDepth);
      if updated.IsCrossed() {
        crossedBooks := crossedBooks + 1;
      }
      books := books[key := updated.ToSnapshot()];
      ArmTimer(key, now);
    }

    /** The runtime removes the timer that fires, then calls this. */
    method OnTimer(key: string, timestamp: int, now: nat, wallMs: int)
      requires cfg.Valid()
      modifies this
      ensures Abs() == AfterTimer(cfg, old(Abs()), key, timestamp, now, wallMs)
    {
      hide FromSnapshot, Split, OrderBook.ToQuote, OrderBook.IsCrossed, NextTick;
      timers := timers - {(key, timestamp)};
      ArmTimer(key, now);
      if key !in books {
        return;
      }
      var book := RebuildBook(books[key]);
      if book.IsCrossed() {
        quotesSuppressed := quotesSuppressed + 1;
        return;
      }
      var venueSymbol := Split(key);
      if |venueSymbol| != 2 {
        return;
      }
      var candidate := book.ToQuote(venueSymbol[0], venueSymbol[1], wallMs * 1000, cfg.imbalanceDepth);
      if candidate.Some? && candidate.value.IsValid() {
        var q := candidate.value;
        if key in lastEmitted && lastEmitted[key] == q.(emitTimeUs := lastEmitted[key].emitTimeUs) {
          quotesSuppressed := quotesSuppressed + 1;
        } else {
          lastEmitted := lastEmitted[key := q];
          quotesEmitted := quotesEmitted + 1;
          out := out + [Emission(key, q)];
        }
      }
    }
  }

  // ---- Runs ----

  /** What can happen to the operator. A restore brings the keyed state back and
      leaves no timer behind it. */
  datatype History =
    | Init
    | Element(prev: History, delta: BookDelta, now: nat)
    | Timer(prev: History, key: string, timestamp: int, now: nat, wallMs: int)
    | Restore(prev: History)

  function StateAfter(cfg: Config, h: History): State
    requires cfg.Valid()
  {
    match h
    case Init => INITIAL
    case Element(prev, delta, now) => AfterElement(cfg, StateAfter(cfg, prev), delta, now)
    case Timer(prev, key, ts, now, wallMs) => AfterTimer(cfg, StateAfter(cfg, prev), key, ts, now, wallMs)
    case Restore(prev) => StateAfter(cfg, prev).(timers := {})
  }

  function Clock(h: History): nat {
    match h
    case Init => 0
    case Element(_, _, now) => now
    case Timer(_, _, _, now, _) => now
    case Restore(prev) => Clock(prev)
  }

  /** The clock never goes back, and a timer fires only when pending and due
      (possibly late). */
  ghost predicate Possible(cfg: Config, h: History)
    requires cfg.Valid()
  {
    match h
    case Init => true
    case Element(prev, _, now) => Possible(cfg, prev) && Clock(prev) <= now
    case Timer(prev, key, ts, now, _) =>
      Possible(cfg, prev) && Clock(prev) <= now && (key, ts) in StateAfter(cfg, prev).timers && ts <= now
    case Restore(prev) => Possible(cfg, prev)
  }

  // ---- Timers ----

  /** When this key last armed a timer, since the start or the last restore. */
  function LastArmed(h: History, key: string): Option<nat> {
    match h
    case Init => None
    case Element(prev, delta, now) => if DeltaKey(delta) == key then Some(now) else LastArmed(prev, key)
    case Timer(prev, k, _, now, _) => if k == key then Some(now) else LastArmed(prev, key)
    case Restore(prev) => None
  }

  lemma TickBounds(now: nat, interval: int)
    requires interval > 0
    ensures now < NextTick(now, interval) <= now + interval
    ensures NextTick(now, interval) % interval == 0
  {
    var q := now / interval;
    assert now == q * interval + now % interval;
    assert (q + 1) * interval == q * interval + interval;
    MultipleMod(q + 1, interval);
  }

  /** Between `now` and the next tick there is no other grid point. */
  lemma OnlyOneTickAhead(now: nat, ts: int, interval: int)
    requires interval > 0 && ts % interval == 0
    requires now < ts <= NextTick(now, interval)
    ensures ts == NextTick(now, interval)
  {
    var q, t := now / interval, ts / interval;
    assert ts == t * interval && now == q * interval + now % interval;
    MulCompare(t, q, interval);
    MulCompare(t, q + 1, interval);
  }

  lemma TickMonotone(now: nat, later: nat, interval: int)
    requires interval > 0 && now <= later
    ensures NextTick(now, interval) <= NextTick(later, interval)
  {
    var q, r := now / interval, later / interval;
    assert now == q * interval + now % interval && later == r * interval + later % interval;
    assert (r + 1) * interval == r * interval + interval;
    MulCompare(q, r, interval);
    MulCompare(r + 1, q, interval);
    MulCompare(q + 1, r + 1, interval);
  }

  lemma {:induction false} PendingTimers(cfg: Config, h: History, key: string, ts: int)
    requires cfg.Valid() && Possible(cfg, h)
    ensures (key, ts) in StateAfter(cfg, h).timers ==>
              ts % cfg.emitIntervalMs == 0 && ts <= NextTick(Clock(h), cfg.emitIntervalMs)
    ensures LastArmed(h, key).Some? ==>
              && LastArmed(h, key).value <= Clock(h)
              && (key, NextTick(LastArmed(h, key).value, cfg.emitIntervalMs)) in StateAfter(cfg, h).timers
  {
    match h
    case Init =>
    case Element(prev, _, now) =>
      PendingTimers(cfg, prev, key, ts);
      TickBounds(now, cfg.emitIntervalMs);
      TickMonotone(Clock(prev), now, cfg.emitIntervalMs);
    case Timer(prev, _, _, now, _) =>
      PendingTimers(cfg, prev, key, ts);
      TickBounds(now, cfg.emitIntervalMs);
      TickMonotone(Clock(prev), now, cfg.emitIntervalMs);
    case Restore(prev) =>
      PendingTimers(cfg, prev, key, ts);
  }

  /** From a key's first element on (or its first element after a restore that lost
      every timer) a timer is always pending and the next one is at most an interval
      past the last arming; every pending timestamp is on the grid; and seen from any
      later moment at most one of them lies ahead, the next tick. */
  lemma TimerNeverDies(cfg: Config, h: History, key: string, now: nat)
    requires cfg.Valid() && Possible(cfg, h) && Clock(h) <= now
    ensures LastArmed(h, key).Some? ==>
              exists ts :: (key, ts) in StateAfter(cfg, h).timers && ts <= now + cfg.emitIntervalMs
    ensures forall ts :: (key, ts) in StateAfter(cfg, h).timers ==>
              ts % cfg.emitIntervalMs == 0 && (ts > now ==> ts == NextTick(now, cfg.emitIntervalMs))
  {
    var timers := StateAfter(cfg, h).timers;
    forall ts | (key, ts) in timers
      ensures ts % cfg.emitIntervalMs == 0 && (ts > now ==> ts == NextTick(now, cfg.emitIntervalMs))
    {
      PendingTimers(cfg, h, key, ts);
      TickMonotone(Clock(h), now, cfg.emitIntervalMs);
      if ts > now {
        OnlyOneTickAhead(now, ts, cfg.emitIntervalMs);
      }
    }
    if LastArmed(h, key).Some? {
      PendingTimers(cfg, h, key, 0);
      var armed := LastArmed(h, key).value;
      TickBounds(armed, cfg.emitIntervalMs);
      assert (key, NextTick(armed, cfg.emitIntervalMs)) in timers;
    }
  }

  // ---- A key's book is a function of that key's deltas ----

  /** The deltas of one key, in arrival order. */
  function DeltasOf(h: History, key: string): Run {
    match h
    case Init => Start
    case Element(prev, delta, _) =>
      if DeltaKey(delta) == key then Then(DeltasOf(prev, key), delta) else DeltasOf(prev, key)
    case Timer(prev, _, _, _, _) => DeltasOf(prev, key)
    case Restore(prev) => DeltasOf(prev, key)
  }

  /** Whatever else happened, the stored state of a key is the checkpoint of the
      trimmed book of its own deltas, and it loads back as exactly that book. */
  lemma {:induction false} StoredBookIsKeptBook(cfg: Config, h: History, key: string)
    requires cfg.Valid()
    ensures key in StateAfter(cfg, h).books <==> DeltasOf(h, key) != Start
    ensures BookAt(StateAfter(cfg, h).books, key) == KeptBook(DeltasOf(h, key), cfg.maxDepth)
    ensures BookAt(StateAfter(cfg, h).books, key).Valid()
  {
    match h
    case Init =>
    case Element(prev, delta, _) =>
      StoredBookIsKeptBook(cfg, prev, key);
      ReachableBooksValid(DeltasOf(h, key), cfg.maxDepth);
      if DeltaKey(delta) == key {
        SnapshotRoundTrip(KeptBook(DeltasOf(h, key), cfg.maxDepth));
      }
    case Timer(prev, _, _, _, _) => StoredBookIsKeptBook(cfg, prev, key);
    case Restore(prev) => StoredBookIsKeptBook(cfg, prev, key);
  }

  // ---- What is emitted ----

  function LastOut(out: seq<Emission>, key: string): Option<Quote> {
    if out == [] then None
    else if out[|out| - 1].key == key then Some(out[|out| - 1].quote)
    else LastOut(out[..|out| - 1], key)
  }

  ghost predicate WellPriced(q: Quote) {
    0.0 < q.bidPrice < q.askPrice && q.bidSize > 0.0 && q.askSize > 0.0 && -1.0 < q.imbalance < 1.0
  }

  /** Every emission is well priced and says something its key's previous one did not. */
  ghost predicate GoodLog(out: seq<Emission>) {
    forall i :: 0 <= i < |out| ==>
      && WellPriced(out[i].quote)
      && match LastOut(out[..i], out[i].key)
         case None => true
         case Some(q) => !SaysTheSame(q, out[i].quote)
  }

  lemma ServableIsWellPriced(cfg: Config, h: History, key: string, wallMs: int)
    requires cfg.Valid() && Servable(cfg, StateAfter(cfg, h).books, key, wallMs).Some?
    ensures WellPriced(Servable(cfg, StateAfter(cfg, h).books, key, wallMs).value)
  {
    StoredBookIsKeptBook(cfg, h, key);
    var b := BookAt(StateAfter(cfg, h).books, key);
    assert b.bids != [] && b.asks != [];
    assert b.bids[0] in b.bids && b.asks[0] in b.asks;
    ImbalanceRange(b, cfg.imbalanceDepth);
  }

  lemma GoodLogExtends(out: seq<Emission>, e: Emission)
    requires GoodLog(out) && WellPriced(e.quote)
    requires LastOut(out, e.key).Some? ==> !SaysTheSame(LastOut(out, e.key).value, e.quote)
    ensures GoodLog(out + [e])
    ensures forall k :: LastOut(out + [e], k) == if k == e.key then Some(e.quote) else LastOut(out, k)
  {
    var out' := out + [e];
    assert out'[..|out|] == out;
    forall i | 0 <= i < |out'|
      ensures WellPriced(out'[i].quote)
      ensures match LastOut(out'[..i], out'[i].key)
              case None => true
              case Some(q) => !SaysTheSame(q, out'[i].quote)
    {
      if i < |out| {
        assert out'[..i] == out[..i] && out'[i] == out[i];
      }
    }
  }

  /** Two quotes say the same thing when they differ at most in when they were emitted. */
  ghost predicate SaysTheSame(a: Quote, b: Quote) { a.(emitTimeUs := b.emitTimeUs) == b }

  lemma UnstampedIsSameSaying(a: Quote, b: Quote)
    ensures Unstamped(a) == Unstamped(b) <==> SaysTheSame(a, b)
  {
  }

  /** The emission state agrees with the log. */
  ghost predicate LogAgrees(s: State) {
    && GoodLog(s.out)
    && s.quotesEmitted == |s.out|
    && forall k :: LastOut(s.out, k) == if k in s.lastEmitted then Some(s.lastEmitted[k]) else None
  }

  lemma TimerKeepsLog(cfg: Config, s: State, key: string, ts: int, now: nat, wallMs: int)
    requires cfg.Valid() && LogAgrees(s)
    requires var q := Servable(cfg, s.books, key, wallMs); q.Some? ==> WellPriced(q.value)
    ensures LogAgrees(AfterTimer(cfg, s, key, ts, now, wallMs))
  {
    hide Servable, BookAt, GoodLog, WellPriced, LastOut;
    var q := Servable(cfg, s.books, key, wallMs);
    if q.Some? && !(key in s.lastEmitted && Unstamped(s.lastEmitted[key]) == Unstamped(q.value)) {
      assert LastOut(s.out, key) == if key in s.lastEmitted then Some(s.lastEmitted[key]) else None;
      GoodLogExtends(s.out, Emission(key, q.value));
    }
  }

  lemma {:induction false} EmissionsAreGood(cfg: Config, h: History)
    requires cfg.Valid()
    ensures LogAgrees(StateAfter(cfg, h))
  {
    match h
    case Init =>
    case Element(prev, _, _) => EmissionsAreGood(cfg, prev);
    case Restore(prev) => EmissionsAreGood(cfg, prev);
    case Timer(prev, key, ts, now, wallMs) =>
      hide LogAgrees, AfterTimer, WellPriced, Servable;
      EmissionsAreGood(cfg, prev);
      if Servable(cfg, StateAfter(cfg, prev).books, key, wallMs).Some? {
        ServableIsWellPriced(cfg, prev, key, wallMs);
      }
      TimerKeepsLog(cfg, StateAfter(cfg, prev), key, ts, now, wallMs);
  }

  /** After a tick, what a subscriber last saw for that key is what its book says now:
      nothing servable is withheld, and nothing else of that key was published since. */
  lemma TickPublishesTheBook(cfg: Config, h: History, key: string, ts: int, now: nat, wallMs: int)
    requires cfg.Valid()
    ensures var s, s' := StateAfter(cfg, h), StateAfter(cfg, Timer(h, key, ts, now, wallMs));
            match Servable(cfg, s.books, key, wallMs)
            case Some(q) => LastOut(s'.out, key).Some? && SaysTheSame(LastOut(s'.out, key).value, q)
            case None => s'.out == s.out
  {
    EmissionsAreGood(cfg, h);
    EmissionsAreGood(cfg, Timer(h, key, ts, now, wallMs));
    var s' := StateAfter(cfg, Timer(h, key, ts, now, wallMs));
    assert LastOut(s'.out, key) == if key in s'.lastEmitted then Some(s'.lastEmitted[key]) else None;
  }

  /** When a stored book is quoted at all: its key names a venue and a symbol, and it has a
      best bid and a best ask with 0 < bid < ask. Nothing else withholds a quote. */
  lemma ServableIff(cfg: Config, h: History, venue: string, symbol: string, wallMs: int)
    requires cfg.Valid() && BAR !in venue && BAR !in symbol && symbol != ""
    ensures var key := KeyOf(venue, symbol);
            var b := KeptBook(DeltasOf(h, key), cfg.maxDepth);
            Servable(cfg, StateAfter(cfg, h).books, key, wallMs).Some? <==>
            b.bids != [] && b.asks != [] && 0.0 < b.bids[0].price < b.asks[0].price
  {
    var key := KeyOf(venue, symbol);
    SplitKeyIff(venue, symbol);
    StoredBookIsKeptBook(cfg, h, key);
  }

  /** The deltas of one venue and symbol, picked by what they say themselves. */
  function DeltasFrom(h: History, venue: string, symbol: string): Run {
    match h
    case Init => Start
    case Element(prev, delta, _) =>
      if delta.venue == venue && delta.symbol == symbol then Then(DeltasFrom(prev, venue, symbol), delta)
      else DeltasFrom(prev, venue, symbol)
    case Timer(prev, _, _, _, _) => DeltasFrom(prev, venue, symbol)
    case Restore(prev) => DeltasFrom(prev, venue, symbol)
  }

  ghost predicate NoBarInVenues(h: History) {
    match h
    case Init => true
    case Element(prev, delta, _) => NoBarInVenues(prev) && BAR !in delta.venue
    case Timer(prev, _, _, _, _) => NoBarInVenues(prev)
    case Restore(prev) => NoBarInVenues(prev)
  }

  /** As long as no venue's name holds a bar, a key's deltas are its own venue's and
      symbol's, and no others. */
  lemma {:induction false} KeyedDeltasAreOwn(h: History, venue: string, symbol: string)
    requires NoBarInVenues(h) && BAR !in venue
    ensures DeltasOf(h, KeyOf(venue, symbol)) == DeltasFrom(h, venue, symbol)
  {
    match h
    case Init =>
    case Element(prev, delta, _) =>
      KeyedDeltasAreOwn(prev, venue, symbol);
      if DeltaKey(delta) == KeyOf(venue, symbol) {
        KeyInjective(delta.venue, delta.symbol, venue, symbol);
      }
    case Timer(prev, _, _, _, _) => KeyedDeltasAreOwn(prev, venue, symbol);
    case Restore(prev) => KeyedDeltasAreOwn(prev, venue, symbol);
  }

  /** The end-to-end guarantee. A quote served for a venue and symbol that read back
      from their key is the quote of the book that was never trimmed or checkpointed,
      while few enough levels were deleted since the last snapshot. */
  lemma ServedQuoteIsTrue(cfg: Config, h: History, venue: string, symbol: string, wallMs: int, d: nat)
    requires cfg.Valid() && BAR !in venue && BAR !in symbol && symbol != ""
    requires d <= cfg.maxDepth - cfg.imbalanceDepth
    requires var run := DeltasOf(h, KeyOf(venue, symbol));
             Deleted(run, cfg.maxDepth, BID_ORDERING) <= d && Deleted(run, cfg.maxDepth, ASK_ORDERING) <= d
    ensures var key := KeyOf(venue, symbol);
            var full := FullBook(DeltasOf(h, key));
            var truth := full.ToQuote(venue, symbol, wallMs * 1000, cfg.imbalanceDepth);
            Servable(cfg, StateAfter(cfg, h).books, key, wallMs) ==
            if truth.Some? && 0.0 < truth.value.bidPrice < truth.value.askPrice then truth else None
    ensures NoBarInVenues(h) ==> DeltasOf(h, KeyOf(venue, symbol)) == DeltasFrom(h, venue, symbol)
  {
    var key := KeyOf(venue, symbol);
    var run := DeltasOf(h, key);
    SplitKeyIff(venue, symbol);
    if NoBarInVenues(h) { KeyedDeltasAreOwn(h, venue, symbol); }
    StoredBookIsKeptBook(cfg, h, key);
    QuoteIsExact(run, cfg.maxDepth, cfg.imbalanceDepth, d);
    var kept, full := KeptBook(run, cfg.maxDepth), FullBook(run);
    assert kept.ToQuote(venue, symbol, wallMs * 1000, cfg.imbalanceDepth) ==
           full.ToQuote(venue, symbol, wallMs * 1000, cfg.imbalanceDepth);
  }

  // ---- The counters ----

  /** Deltas after which the key they belong to had a crossed book. */
  ghost function CrossedDeltas(cfg: Config, h: History): nat
    requires cfg.Valid()
  {
    match h
    case Init => 0
    case Element(prev, delta, _) =>
      CrossedDeltas(cfg, prev) +
      if KeptBook(DeltasOf(h, DeltaKey(delta)), cfg.maxDepth).IsCrossed() then 1 else 0
    case Timer(prev, _, _, _, _) => CrossedDeltas(cfg, prev)
    case Restore(prev) => CrossedDeltas(cfg, prev)
  }

  ghost function Snapshots(h: History): nat {
    match h
    case Init => 0
    case Element(prev, delta, _) => Snapshots(prev) + if delta.isSnapshot then 1 else 0
    case Timer(prev, _, _, _, _) => Snapshots(prev)
    case Restore(prev) => Snapshots(prev)
  }

  /** Ticks that found a crossed book or one that may be served. */
  ghost function AnsweredTicks(cfg: Config, h: History): nat
    requires cfg.Valid()
  {
    match h
    case Init => 0
    case Element(prev, _, _) => AnsweredTicks(cfg, prev)
    case Timer(prev, key, _, _, wallMs) =>
      AnsweredTicks(cfg, prev) +
      if KeptBook(DeltasOf(prev, key), cfg.maxDepth).IsCrossed()
         || Servable(cfg, StateAfter(cfg, prev).books, key, wallMs).Some? then 1 else 0
    case Restore(prev) => AnsweredTicks(cfg, prev)
  }

  /** The crossed-book counter counts deltas that leave their own key's book crossed,
      by the books of `KeptBook`; the snapshot counter counts snapshots of any key; and
      every tick with something to say is counted once, as emitted or as suppressed. */
  lemma {:induction false} CountersCount(cfg: Config, h: History)
    requires cfg.Valid()
    ensures StateAfter(cfg, h).crossedBooks == CrossedDeltas(cfg, h)
    ensures StateAfter(cfg, h).snapshotsApplied == Snapshots(h)
    ensures StateAfter(cfg, h).quotesEmitted + StateAfter(cfg, h).quotesSuppressed == AnsweredTicks(cfg, h)
  {
    match h
    case Init =>
    case Element(prev, delta, now) =>
      hide AfterElement, AfterTimer, BookAt, Servable, KeptBook;
      CountersCount(cfg, prev);
      StoredBookIsKeptBook(cfg, prev, DeltaKey(delta));
      ElementCounts(cfg, StateAfter(cfg, prev), delta, now);
      StoredBookIsKeptBook(cfg, h, DeltaKey(delta));
    case Timer(prev, key, ts, now, wallMs) =>
      hide AfterElement, AfterTimer, BookAt, Servable, KeptBook;
      CountersCount(cfg, prev);
      TimerCounts(cfg, StateAfter(cfg, prev), key, ts, now, wallMs);
      StoredBookIsKeptBook(cfg, prev, key);
    case Restore(prev) => CountersCount(cfg, prev);
  }

  lemma ElementCounts(cfg: Config, s: State, delta: BookDelta, now: nat)
    requires cfg.Valid() && BookAt(s.books, DeltaKey(delta)).Valid()
    ensures var s' := AfterElement(cfg, s, delta, now);
            && s'.crossedBooks == s.crossedBooks + (if BookAt(s'.books, DeltaKey(delta)).IsCrossed() then 1 else 0)
            && s'.snapshotsApplied == s.snapshotsApplied + (if delta.isSnapshot then 1 else 0)
            && s'.quotesEmitted == s.quotesEmitted && s'.quotesSuppressed == s.quotesSuppressed
  {
    ApplyTrimKeepsValid(BookAt(s.books, DeltaKey(delta)), delta, cfg.maxDepth);
    SnapshotRoundTrip(BookAt(s.books, DeltaKey(delta)).Apply(delta).Trim(cfg.maxDepth));
  }

  lemma TimerCounts(cfg: Config, s: State, key: string, ts: int, now: nat, wallMs: int)
    requires cfg.Valid()
    ensures var s' := AfterTimer(cfg, s, key, ts, now, wallMs);
            && s'.crossedBooks == s.crossedBooks && s'.snapshotsApplied == s.snapshotsApplied
            && s'.quotesEmitted + s'.quotesSuppressed == s.quotesEmitted + s.quotesSuppressed +
               if BookAt(s.books, key).IsCrossed() || Servable(cfg, s.books, key, wallMs).Some? then 1 else 0
  {
    hide Split, Unstamped;
  }
}
