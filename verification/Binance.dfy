/** Depth updates that carry a range [U, u] of ids, and the dense number each symbol's
    cursor makes of them. One end advances the cursors, the other checks the numbers by
    +1, and the two meet across a queue and a two-part reconnect. */
module BinanceSequence {
  import opened Events
  import opened Gap
  import IngestPipeline

  /** A symbol's cursor; a symbol not seen since the last reset has none. */
  datatype Cursor = Cursor(lastFinal: int, dense: int)

  /** The cursor after one range. */
  function Advance(cur: Option<Cursor>, firstId: int, finalId: int): Cursor {
    match cur
    case None => Cursor(finalId, 0)
    case Some(c) =>
      if firstId == c.lastFinal + 1 then Cursor(finalId, c.dense + 1)
      else if firstId <= c.lastFinal then Cursor(Max(c.lastFinal, finalId), c.dense)
      else Cursor(finalId, c.dense + Max(firstId - c.lastFinal - 1, 1) + 1)
  }

  function Lookup<V>(m: map<string, V>, k: string): Option<V> {
    if k in m then Some(m[k]) else None
  }

  class Binance {
    var bookSeq: map<string, Cursor>

    constructor ()
      ensures bookSeq == map[]
    {
      bookSeq := map[];
    }

    method DenseSequence(symbol: string, firstId: int, finalId: int) returns (dense: int)
      modifies this
      ensures bookSeq == old(bookSeq)[symbol := Advance(Lookup(old(bookSeq), symbol), firstId, finalId)]
      ensures dense == bookSeq[symbol].dense
    {
      if symbol !in bookSeq {
        bookSeq := bookSeq[symbol := Cursor(finalId, 0)];
        return 0;
      }
      var cur := bookSeq[symbol];
      if firstId == cur.lastFinal + 1 {
        cur := cur.(dense := cur.dense + 1);
      } else if firstId <= cur.lastFinal {
        bookSeq := bookSeq[symbol := cur.(lastFinal := Max(cur.lastFinal, finalId))];
        return cur.dense;
      } else {
        var missing := firstId - cur.lastFinal - 1;
        if missing < 1 {
          missing := 1;
        }
        cur := cur.(dense := cur.dense + missing + 1);
      }
      bookSeq := bookSeq[symbol := cur.(lastFinal := finalId)];
      return cur.dense;
    }

    method ResetBooks()
      modifies this
      ensures bookSeq == map[]
    {
      bookSeq := map[];
    }
  }

  // ---- The protocol: decode and enqueue, dequeue and observe, reconnect ----

  const VENUE: string := "binance"

  function DepthKey(symbol: string): Key { Key(VENUE, symbol, "book") }

  /** The stream the pipeline checks an event in is a symbol's depth stream exactly when
      the event is a book delta of that symbol from this venue. */
  lemma DepthKeyIff(cfg: IngestPipeline.Config, ev: IngestPipeline.Event, sym: string)
    requires VENUE !in cfg.connectionScoped
    ensures IngestPipeline.SequenceKey(cfg, ev) == DepthKey(sym) <==>
            ev.venue == VENUE && ev.symbol == sym && ev.kind.BookDeltaKind?
  {
  }

  ghost predicate IsDepthKey(k: Key) { k.venue == VENUE && k.channel == "book" }

  /** A queued event. For a depth update the cursors are history: as of the symbol's
      previous enqueued update this session, just before this one, and just after. */
  datatype Item =
    | Depth(symbol: string, firstId: int, finalId: int, prior: Option<Cursor>, before: Option<Cursor>, after: Cursor)
    | Other(key: Key, number: int)
  {
    function Key(): Key { if Depth? then DepthKey(symbol) else key }

    function Number(): int { if Depth? then after.dense else number }
  }

  /** What the observed part of a symbol's session adds up to, in ids: ranges accepted
      past the cursor, what was reported missing, new tails of overlapping ranges, what
      would have been reported right after a gap had made the detector forget the symbol,
      and what frames that failed to decode covered beyond what they counted for. */
  datatype Ledger = Ledger(origin: int, accepted: int, missing: int, tails: int, hidden: int, lost: int) {
    function Total(): int { origin + accepted + missing + tails + hidden + lost }
  }

  /** The regression tolerance, and what a reported gap triggers. */
  datatype Config = Config(tolerance: int, onResync: OnResync)

  /** The last four are history; `forgotten` holds the symbols whose latest delivered
      update was a gap that made the detector forget them. */
  datatype State = State(
    cursors: map<string, Cursor>, queue: seq<Item>, last: Last, resetting: bool,
    enqueued: map<string, Cursor>, delivered: map<string, Cursor>, ledgers: map<string, Ledger>,
    forgotten: set<string>)

  const INITIAL := State(map[], [], map[], false, map[], map[], map[], {})

  /** A decode may fail after the cursor has moved: the range was consumed, nothing
      is enqueued. A reconnect clears the detector first and the cursors second. */
  datatype Step =
    | Decode(symbol: string, firstId: int, finalId: int, malformed: bool)
    | Enqueue(key: Key, number: int)
    | Dequeue
    | ResetDetector
    | ResetBooks
    | ResetOther(venue: string)

  function Recorded(ledger: Option<Ledger>, item: Item, r: Result): Ledger
    requires item.Depth?
  {
    match ledger
    case None => Ledger(item.after.lastFinal, 0, 0, 0, 0, 0)
    case Some(l) =>
      var reached := item.before.GetOr(item.after).lastFinal;
      l.(accepted := l.accepted + if item.firstId > reached then item.finalId - item.firstId + 1 else 0,
         tails := l.tails + if item.firstId > reached then 0 else Max(0, item.finalId - reached),
         missing := l.missing + r.missing,
         hidden := l.hidden + if r.status.First? then Reportable(item) else 0,
         lost := l.lost + Uncounted(item))
  }

  /** What the detector reports missing before this update when it knows the previous one. */
  function Reportable(item: Item): int
    requires item.Depth?
  {
    if item.prior.None? then 0 else Max(0, item.after.dense - item.prior.value.dense - 1)
  }

  /** The ids that frames lost between this update and the previous one covered, less what
      they moved the dense number by; an overlapping update takes one of those numbers as
      its own. */
  function Uncounted(item: Item): int
    requires item.Depth?
  {
    if item.prior.None? || item.before.None? then 0
    else
      var p, b := item.prior.value, item.before.value;
      (b.lastFinal - p.lastFinal) - (b.dense - p.dense)
      + if item.firstId <= b.lastFinal && b.dense > p.dense then 1 else 0
  }

  function Next(cfg: Config, s: State, step: Step): State {
    match step
    case Decode(sym, firstId, finalId, malformed) =>
      var before := Lookup(s.cursors, sym);
      var after := Advance(before, firstId, finalId);
      var moved := s.(cursors := s.cursors[sym := after]);
      if malformed then moved
      else moved.(queue := s.queue + [Depth(sym, firstId, finalId, Lookup(s.enqueued, sym), before, after)],
                  enqueued := s.enqueued[sym := after])
    case Enqueue(k, n) => s.(queue := s.queue + [Other(k, n)])
    case Dequeue =>
      if s.queue == [] then s
      else
        var item := s.queue[0];
        var r := Verdict(s.last, cfg.tolerance, item.Key(), item.Number());
        var taken := s.(queue := s.queue[1..],
                        last := Settle(cfg.onResync, s.last, cfg.tolerance, item.Key(), item.Number()));
        if item.Other? then taken
        else taken.(delivered := s.delivered[item.symbol := item.after],
                    ledgers := s.ledgers[item.symbol := Recorded(Lookup(s.ledgers, item.symbol), item, r)],
                    forgotten := s.forgotten - {item.symbol} +
                                 if r.NeedsResync() && cfg.onResync.ForgetStream? then {item.symbol} else {})
    case ResetDetector =>
      s.(last := ForgetVenue(s.last, VENUE), resetting := true,
         enqueued := map[], delivered := map[], ledgers := map[], forgotten := {})
    case ResetBooks => s.(cursors := map[], resetting := false)
    case ResetOther(v) => s.(last := ForgetVenue(s.last, v))
  }

  /** The runner decodes nothing while it reconnects. */
  ghost predicate CanHappen(s: State, step: Step) {
    match step
    case Decode(_, _, _, _) => !s.resetting
    case Enqueue(k, _) => !IsDepthKey(k)
    case Dequeue => true
    case ResetDetector => !s.resetting
    case ResetBooks => s.resetting
    case ResetOther(v) => v != VENUE
  }

  /** The precondition nothing in the wiring checks: none of the venue's depth updates
      is still queued when a reconnect clears the detector. */
  ghost predicate Allowed(s: State, step: Step) {
    CanHappen(s, step) && (step.ResetDetector? ==> forall i :: 0 <= i < |s.queue| ==> s.queue[i].Other?)
  }

  datatype Run = Begin | Then(prev: Run, step: Step)

  function StateAfter(cfg: Config, run: Run): State {
    match run
    case Begin => INITIAL
    case Then(prev, step) => Next(cfg, StateAfter(cfg, prev), step)
  }

  ghost predicate Possible(cfg: Config, run: Run) {
    match run
    case Begin => true
    case Then(prev, step) => Possible(cfg, prev) && Allowed(StateAfter(cfg, prev), step)
  }

  // ---- The invariant ----

  /** A symbol's cursor as the detector will know it once this queue has drained. */
  ghost function Drained(delivered: map<string, Cursor>, queue: seq<Item>, symbol: string): Option<Cursor> {
    if queue == [] then Lookup(delivered, symbol)
    else
      var item := queue[|queue| - 1];
      if item.Depth? && item.symbol == symbol then Some(item.after)
      else Drained(delivered, queue[..|queue| - 1], symbol)
  }

  ghost predicate GoodItem(item: Item) {
    if item.Depth? then
      && item.after == Advance(item.before, item.firstId, item.finalId)
      && item.after.dense >= 0
      && (item.prior.Some? ==> item.before.Some? && item.before.value.dense >= item.prior.value.dense >= 0)
    else !IsDepthKey(item.key)
  }

  /** Each queued update's predecessor is what the queue before it drains to. */
  ghost predicate Linked(delivered: map<string, Cursor>, queue: seq<Item>) {
    forall i :: 0 <= i < |queue| ==>
      GoodItem(queue[i]) && (queue[i].Depth? ==> queue[i].prior == Drained(delivered, queue[..i], queue[i].symbol))
  }

  ghost predicate DetectorKnows(last: Last, delivered: map<string, Cursor>, forgotten: set<string>) {
    forall sym :: (DepthKey(sym) in last <==> sym in delivered && sym !in forgotten)
                  && (DepthKey(sym) in last ==> last[DepthKey(sym)] == delivered[sym].dense)
  }

  ghost predicate CursorsAhead(cursors: map<string, Cursor>, enqueued: map<string, Cursor>) {
    && (forall sym :: sym in cursors ==> cursors[sym].dense >= 0)
    && (forall sym :: sym in enqueued ==>
          sym in cursors && cursors[sym].dense >= enqueued[sym].dense >= 0)
  }

  ghost predicate Inv(s: State) {
    && Linked(s.delivered, s.queue)
    && (forall sym :: Lookup(s.enqueued, sym) == Drained(s.delivered, s.queue, sym))
    && DetectorKnows(s.last, s.delivered, s.forgotten)
    && (forall sym :: sym in s.forgotten ==> sym in s.delivered)
    && CursorsAhead(s.cursors, s.enqueued)
    && (s.resetting ==> s.enqueued == map[])
  }

  lemma {:induction false} DrainedAppend(delivered: map<string, Cursor>, queue: seq<Item>, item: Item)
    ensures forall sym :: Drained(delivered, queue + [item], sym) ==
              if item.Depth? && item.symbol == sym then Some(item.after) else Drained(delivered, queue, sym)
  {
    assert (queue + [item])[..|queue|] == queue;
  }

  lemma LinkedAppend(delivered: map<string, Cursor>, queue: seq<Item>, item: Item)
    requires Linked(delivered, queue) && GoodItem(item)
    requires item.Depth? ==> item.prior == Drained(delivered, queue, item.symbol)
    ensures Linked(delivered, queue + [item])
  {
    var q := queue + [item];
    forall i | 0 <= i < |q|
      ensures GoodItem(q[i]) && (q[i].Depth? ==> q[i].prior == Drained(delivered, q[..i], q[i].symbol))
    {
      if i < |queue| {
        assert q[..i] == queue[..i] && q[i] == queue[i];
      } else {
        assert q[..i] == queue;
      }
    }
  }

  /** Taking the head and recording it as delivered changes nothing downstream. */
  lemma {:induction false} DrainedTail(delivered: map<string, Cursor>, queue: seq<Item>, sym: string)
    requires queue != []
    ensures var delivered' := if queue[0].Depth? then delivered[queue[0].symbol := queue[0].after] else delivered;
            Drained(delivered', queue[1..], sym) == Drained(delivered, queue, sym)
  {
    if |queue| > 1 {
      var n := |queue| - 1;
      DrainedTail(delivered, queue[..n], sym);
      assert queue[..n][1..] == queue[1..][..n - 1];
    }
  }

  lemma LinkedTail(delivered: map<string, Cursor>, queue: seq<Item>)
    requires queue != [] && Linked(delivered, queue)
    ensures var delivered' := if queue[0].Depth? then delivered[queue[0].symbol := queue[0].after] else delivered;
            Linked(delivered', queue[1..])
  {
    var delivered' := if queue[0].Depth? then delivered[queue[0].symbol := queue[0].after] else delivered;
    var q := queue[1..];
    forall i | 0 <= i < |q|
      ensures GoodItem(q[i]) && (q[i].Depth? ==> q[i].prior == Drained(delivered', q[..i], q[i].symbol))
    {
      assert q[i] == queue[i + 1] && queue[..i + 1][1..] == q[..i] && queue[..i + 1][0] == queue[0];
      if q[i].Depth? {
        DrainedTail(delivered, queue[..i + 1], q[i].symbol);
      }
    }
  }

  /** The head's predecessor is what the detector remembers, so its number never
      falls behind. */
  lemma HeadIsNext(s: State)
    requires Inv(s) && s.queue != [] && s.queue[0].Depth?
    ensures s.queue[0].prior == Lookup(s.delivered, s.queue[0].symbol)
    ensures GoodItem(s.queue[0])
    ensures s.queue[0].prior.Some? ==> s.queue[0].after.dense >= s.queue[0].prior.value.dense
  {
    assert s.queue[..0] == [];
  }

  lemma DetectorLearns(cfg: Config, last: Last, delivered: map<string, Cursor>, forgotten: set<string>, item: Item)
    requires cfg.tolerance >= 0 && DetectorKnows(last, delivered, forgotten) && GoodItem(item)
    requires item.Depth? ==> item.prior == Lookup(delivered, item.symbol)
    ensures var r := Verdict(last, cfg.tolerance, item.Key(), item.Number());
            var last' := Settle(cfg.onResync, last, cfg.tolerance, item.Key(), item.Number());
            if item.Other? then DetectorKnows(last', delivered, forgotten)
            else DetectorKnows(last', delivered[item.symbol := item.after],
                               forgotten - {item.symbol} +
                               if r.NeedsResync() && cfg.onResync.ForgetStream? then {item.symbol} else {})
  {
    var k := item.Key();
    if item.Depth? {
      assert forall sym :: DepthKey(sym) == k <==> sym == item.symbol;
    } else {
      assert forall sym :: DepthKey(sym) != k;
    }
  }

  lemma DequeueKeepsInv(cfg: Config, s: State)
    requires cfg.tolerance >= 0 && Inv(s)
    ensures Inv(Next(cfg, s, Dequeue))
  {
    if s.queue != [] {
      var item := s.queue[0];
      if item.Depth? { HeadIsNext(s); }
      DetectorLearns(cfg, s.last, s.delivered, s.forgotten, item);
      LinkedTail(s.delivered, s.queue);
      forall sym { DrainedTail(s.delivered, s.queue, sym); }
    }
  }

  lemma CursorMoves(
      cursors: map<string, Cursor>, enqueued: map<string, Cursor>, sym: string, firstId: int, finalId: int)
    requires CursorsAhead(cursors, enqueued)
    ensures var after := Advance(Lookup(cursors, sym), firstId, finalId);
            && CursorsAhead(cursors[sym := after], enqueued)
            && CursorsAhead(cursors[sym := after], enqueued[sym := after])
            && GoodItem(Depth(sym, firstId, finalId, Lookup(enqueued, sym), Lookup(cursors, sym), after))
  {
  }

  lemma DecodeKeepsInv(cfg: Config, s: State, step: Step)
    requires step.Decode? && !s.resetting && Inv(s)
    ensures Inv(Next(cfg, s, step))
  {
    hide CursorsAhead, GoodItem, Advance, Linked, Drained, DetectorKnows;
    var before := Lookup(s.cursors, step.symbol);
    var after := Advance(before, step.firstId, step.finalId);
    CursorMoves(s.cursors, s.enqueued, step.symbol, step.firstId, step.finalId);
    if !step.malformed {
      var item := Depth(step.symbol, step.firstId, step.finalId, Lookup(s.enqueued, step.symbol), before, after);
      LinkedAppend(s.delivered, s.queue, item);
      DrainedAppend(s.delivered, s.queue, item);
    }
  }

  lemma {:induction false} NothingQueued(queue: seq<Item>)
    requires forall i :: 0 <= i < |queue| ==> queue[i].Other?
    ensures forall sym :: Drained(map[], queue, sym) == None
  {
    if queue != [] {
      NothingQueued(queue[..|queue| - 1]);
    }
  }

  lemma StepKeepsInv(cfg: Config, s: State, step: Step)
    requires cfg.tolerance >= 0 && Inv(s) && Allowed(s, step)
    ensures Inv(Next(cfg, s, step))
  {
    match step
    case Decode(_, _, _, _) => DecodeKeepsInv(cfg, s, step);
    case Enqueue(k, n) =>
      LinkedAppend(s.delivered, s.queue, Other(k, n));
      DrainedAppend(s.delivered, s.queue, Other(k, n));
    case Dequeue => DequeueKeepsInv(cfg, s);
    case ResetDetector =>
      NothingQueued(s.queue);
      assert forall sym :: DepthKey(sym).venue == VENUE;
    case ResetBooks =>
    case ResetOther(_) =>
      assert forall sym :: DepthKey(sym).venue == VENUE;
  }

  lemma {:induction false} ReachableInv(cfg: Config, run: Run)
    requires cfg.tolerance >= 0 && Possible(cfg, run)
    ensures Inv(StateAfter(cfg, run))
  {
    match run
    case Begin =>
    case Then(prev, step) =>
      hide Inv, Next, Allowed;
      ReachableInv(cfg, prev);
      StepKeepsInv(cfg, StateAfter(cfg, prev), step);
  }

  // ---- What the detector says ----

  /** The verdict a depth update should get from its range alone. */
  ghost predicate MatchesRange(r: Result, prev: int, firstId: int) {
    && (r.status.OK? <==> firstId == prev + 1)
    && (r.status.Gap? <==> firstId > prev + 1)
    && (r.status.Duplicate? <==> firstId <= prev)
    && r.missing == if firstId > prev + 1 then firstId - prev - 1 else 0
  }

  function HeadVerdict(cfg: Config, s: State): Result
    requires s.queue != []
  {
    Verdict(s.last, cfg.tolerance, s.queue[0].Key(), s.queue[0].Number())
  }

  /** In every reachable state, the next depth update to be observed is First exactly
      when it is the first one delivered this session, or the one before it was a gap
      that made the detector forget the symbol. Otherwise the verdict counts the cursor's
      advance since the previously delivered update, decode failures included. That is
      the verdict the update's range deserves exactly when the dense number moved over
      the updates lost in between by as much as the distance to the range shrank. */
  lemma DepthVerdict(cfg: Config, run: Run)
    requires cfg.tolerance >= 0 && Possible(cfg, run)
    requires var s := StateAfter(cfg, run); s.queue != [] && s.queue[0].Depth?
    ensures var s := StateAfter(cfg, run);
            var item, r := s.queue[0], HeadVerdict(cfg, s);
            match item.prior
            case None => r.status.First?
            case Some(p) =>
              if item.symbol in s.forgotten then r.status.First?
              else
                && (r.status.Duplicate? <==> item.after.dense == p.dense)
                && (r.status.OK? <==> item.after.dense == p.dense + 1)
                && (r.status.Gap? <==> item.after.dense > p.dense + 1)
                && (r.status.Gap? ==> r.missing == item.after.dense - p.dense - 1)
                && item.before.Some?
                && (MatchesRange(r, p.lastFinal, item.firstId) <==>
                    item.before.value.dense - p.dense ==
                    Max(0, item.firstId - p.lastFinal) - Max(0, item.firstId - item.before.value.lastFinal))
  {
    hide StateAfter, Possible;
    ReachableInv(cfg, run);
    HeadIsNext(StateAfter(cfg, run));
  }

  // ---- Where a cursor stands, from the ranges alone ----

  /** Every range runs forwards, as the venue's do. */
  ghost predicate OrderedRanges(run: Run) {
    match run
    case Begin => true
    case Then(prev, step) => OrderedRanges(prev) && (step.Decode? ==> step.firstId <= step.finalId)
  }

  /** The largest final id decoded for a symbol since the cursors were last cleared. */
  function HighestDecoded(run: Run, sym: string): Option<int> {
    match run
    case Begin => None
    case Then(prev, Decode(s, _, finalId, _)) =>
      if s == sym then Some(Max(HighestDecoded(prev, sym).GetOr(finalId), finalId)) else HighestDecoded(prev, sym)
    case Then(prev, ResetBooks) => None
    case Then(prev, _) => HighestDecoded(prev, sym)
  }

  ghost predicate StandsAt(cursor: Option<Cursor>, id: Option<int>) {
    match (cursor, id)
    case (None, None) => true
    case (Some(c), Some(i)) => c.lastFinal == i
    case _ => false
  }

  lemma AdvanceStandsAt(cursor: Option<Cursor>, id: Option<int>, firstId: int, finalId: int)
    requires firstId <= finalId && StandsAt(cursor, id)
    ensures StandsAt(Some(Advance(cursor, firstId, finalId)), Some(Max(id.GetOr(finalId), finalId)))
  {
  }

  /** In every run, a symbol's cursor stands at the largest final id decoded for it. */
  lemma {:induction false} CursorIsHighest(cfg: Config, run: Run, sym: string)
    requires OrderedRanges(run)
    ensures StandsAt(Lookup(StateAfter(cfg, run).cursors, sym), HighestDecoded(run, sym))
  {
    match run
    case Begin =>
    case Then(prev, step) =>
      hide Advance, StandsAt, Recorded, Verdict, Settle;
      CursorIsHighest(cfg, prev, sym);
      if step.Decode? && step.symbol == sym {
        AdvanceStandsAt(Lookup(StateAfter(cfg, prev).cursors, sym), HighestDecoded(prev, sym),
                        step.firstId, step.finalId);
      } else if step.ResetBooks? {
        NothingStands();
      }
  }

  lemma NothingStands()
    ensures StandsAt(None, None)
  {
  }

  // ---- Runs in which every depth frame is well formed ----

  ghost predicate NoMalformed(run: Run) {
    match run
    case Begin => true
    case Then(prev, step) => NoMalformed(prev) && (step.Decode? ==> !step.malformed)
  }

  ghost predicate Clean(s: State) {
    && s.enqueued == (if s.resetting then map[] else s.cursors)
    && forall i :: 0 <= i < |s.queue| ==> s.queue[i].Depth? ==> s.queue[i].prior == s.queue[i].before
  }

  lemma StepKeepsClean(cfg: Config, s: State, step: Step)
    requires Clean(s) && Allowed(s, step) && (step.Decode? ==> !step.malformed)
    ensures Clean(Next(cfg, s, step))
  {
    hide Verdict, Remember, Advance, Recorded, ForgetVenue;
  }

  lemma {:induction false} WellFormedRunsAreClean(cfg: Config, run: Run)
    requires NoMalformed(run) && Possible(cfg, run)
    ensures Clean(StateAfter(cfg, run))
  {
    match run
    case Begin =>
    case Then(prev, step) =>
      hide Clean, Next, Allowed;
      WellFormedRunsAreClean(cfg, prev);
      StepKeepsClean(cfg, StateAfter(cfg, prev), step);
  }

  /** The largest final id delivered of a symbol since the detector was last cleared. */
  ghost function HighestDelivered(cfg: Config, run: Run, sym: string): Option<int> {
    match run
    case Begin => None
    case Then(prev, Dequeue) =>
      var q := StateAfter(cfg, prev).queue;
      if q != [] && q[0].Depth? && q[0].symbol == sym
      then Some(Max(HighestDelivered(cfg, prev, sym).GetOr(q[0].finalId), q[0].finalId))
      else HighestDelivered(cfg, prev, sym)
    case Then(prev, ResetDetector) => None
    case Then(prev, _) => HighestDelivered(cfg, prev, sym)
  }

  ghost predicate OrderedItems(queue: seq<Item>) {
    forall i :: 0 <= i < |queue| && queue[i].Depth? ==> queue[i].firstId <= queue[i].finalId
  }

  lemma StepKeepsItemsOrdered(cfg: Config, s: State, step: Step)
    requires OrderedItems(s.queue) && (step.Decode? ==> step.firstId <= step.finalId)
    ensures OrderedItems(Next(cfg, s, step).queue)
  {
    hide Advance, Recorded, Verdict, Settle;
  }

  lemma {:induction false} QueuedItemsOrdered(cfg: Config, run: Run)
    requires OrderedRanges(run)
    ensures OrderedItems(StateAfter(cfg, run).queue)
  {
    match run
    case Begin =>
    case Then(prev, step) =>
      hide Next, OrderedItems;
      QueuedItemsOrdered(cfg, prev);
      StepKeepsItemsOrdered(cfg, StateAfter(cfg, prev), step);
  }

  lemma DequeueStandsAt(cfg: Config, s: State, sym: string, id: Option<int>)
    requires Inv(s) && Clean(s) && OrderedItems(s.queue) && StandsAt(Lookup(s.delivered, sym), id)
    ensures var q := s.queue;
            StandsAt(Lookup(Next(cfg, s, Dequeue).delivered, sym),
                     if q != [] && q[0].Depth? && q[0].symbol == sym
                     then Some(Max(id.GetOr(q[0].finalId), q[0].finalId)) else id)
  {
    hide Advance, StandsAt, Recorded, Verdict, Settle;
    if s.queue != [] && s.queue[0].Depth? && s.queue[0].symbol == sym {
      var item := s.queue[0];
      HeadIsNext(s);
      assert item.prior == item.before;
      AdvanceStandsAt(item.before, id, item.firstId, item.finalId);
    }
  }

  lemma {:induction false} DeliveredIsHighest(cfg: Config, run: Run, sym: string)
    requires cfg.tolerance >= 0 && Possible(cfg, run) && NoMalformed(run) && OrderedRanges(run)
    ensures StandsAt(Lookup(StateAfter(cfg, run).delivered, sym), HighestDelivered(cfg, run, sym))
  {
    match run
    case Begin =>
    case Then(prev, step) =>
      hide Inv, Clean, OrderedItems, StandsAt, Allowed, Recorded, Verdict, Settle, Advance;
      DeliveredIsHighest(cfg, prev, sym);
      if step.Dequeue? {
        ReachableInv(cfg, prev);
        WellFormedRunsAreClean(cfg, prev);
        QueuedItemsOrdered(cfg, prev);
        DequeueStandsAt(cfg, StateAfter(cfg, prev), sym, HighestDelivered(cfg, prev, sym));
      } else if step.ResetDetector? {
        NothingStands();
      }
  }

  /** For every interleaving of decoding, dequeuing and (well-timed) reconnects: after
      the first update of a session, a depth update with range [U, u] is OK iff
      U == prev + 1, a gap of exactly U - prev - 1 iff U > prev + 1, and a duplicate
      iff U <= prev, prev being the largest final id delivered of the symbol before it
      this session (where its cursor stood, if ranges may run backwards). With the wired
      hook the update right after a reported gap is First instead, whatever its
      range; without a hook no update is. */
  lemma RangesAreClassifiedExactly(cfg: Config, run: Run)
    requires cfg.tolerance >= 0 && Possible(cfg, run) && NoMalformed(run)
    requires var s := StateAfter(cfg, run); s.queue != [] && s.queue[0].Depth?
    ensures var s := StateAfter(cfg, run);
            var item, r := s.queue[0], HeadVerdict(cfg, s);
            match Lookup(s.delivered, item.symbol)
            case None => r.status.First?
            case Some(p) =>
              && item.before == Some(p)
              && (if item.symbol in s.forgotten then r.status.First? && r.missing == 0
                  else MatchesRange(r, p.lastFinal, item.firstId))
    ensures OrderedRanges(run) ==>
              var s := StateAfter(cfg, run);
              var item, r := s.queue[0], HeadVerdict(cfg, s);
              match HighestDelivered(cfg, run, item.symbol)
              case None => r.status.First?
              case Some(prev) =>
                if item.symbol in s.forgotten then r.status.First? && r.missing == 0
                else MatchesRange(r, prev, item.firstId)
    ensures cfg.onResync.Ignore? ==> StateAfter(cfg, run).forgotten == {}
  {
    hide StateAfter, Possible, NoMalformed, OrderedRanges, HighestDelivered;
    if OrderedRanges(run) { DeliveredIsHighest(cfg, run, StateAfter(cfg, run).queue[0].symbol); }
    WellFormedRunsAreClean(cfg, run);
    DepthVerdict(cfg, run);
    ReachableInv(cfg, run);
    if cfg.onResync.Ignore? { NothingForgotten(cfg, run); }
    HeadIsNext(StateAfter(cfg, run));
  }

  lemma NextForgetsNothing(cfg: Config, s: State, step: Step)
    requires cfg.onResync.Ignore? && s.forgotten == {}
    ensures Next(cfg, s, step).forgotten == {}
  {
    hide Settle, Verdict, Advance, Recorded, ForgetVenue;
    match step
    case Dequeue =>
      if s.queue != [] && s.queue[0].Depth? {
        var none: set<string> := {};
        assert none - {s.queue[0].symbol} == none;
      }
    case _ =>
  }

  /** Without a hook nothing is ever forgotten. */
  lemma {:induction false} NothingForgotten(cfg: Config, run: Run)
    requires cfg.onResync.Ignore?
    ensures StateAfter(cfg, run).forgotten == {}
  {
    match run
    case Begin =>
    case Then(prev, step) =>
      hide Next;
      NothingForgotten(cfg, prev);
      NextForgetsNothing(cfg, StateAfter(cfg, prev), step);
  }

  // ---- Conservation ----

  /** What was observed of each symbol adds up to where its cursor stood, and only a
      hook hides anything. */
  ghost predicate LedgersBalance(cfg: Config, s: State) {
    forall sym :: (sym in s.ledgers <==> sym in s.delivered)
                  && (sym in s.ledgers ==>
                        && s.ledgers[sym].Total() == s.delivered[sym].lastFinal
                        && s.ledgers[sym].hidden >= 0
                        && (cfg.onResync.Ignore? ==> s.ledgers[sym].hidden == 0))
  }

  /** One update's contributions add up to what its cursor advanced by. */
  lemma UpdateBalances(l: Ledger, item: Item, r: Result)
    requires item.Depth? && GoodItem(item) && item.prior.Some? && l.Total() == item.prior.value.lastFinal
    requires r.missing + (if r.status.First? then Reportable(item) else 0) == Reportable(item)
    ensures Recorded(Some(l), item, r).Total() == item.after.lastFinal
  {
  }

  /** The detector reports what there is to report, unless it has forgotten the symbol. */
  lemma HeadReports(cfg: Config, s: State)
    requires cfg.tolerance >= 0 && Inv(s) && s.queue != [] && s.queue[0].Depth? && s.queue[0].prior.Some?
    ensures var item, r := s.queue[0], Verdict(s.last, cfg.tolerance, s.queue[0].Key(), s.queue[0].Number());
            && r.missing + (if r.status.First? then Reportable(item) else 0) == Reportable(item)
            && (r.status.First? <==> item.symbol in s.forgotten)
  {
    HeadIsNext(s);
  }

  lemma DequeueBalances(cfg: Config, s: State)
    requires cfg.tolerance >= 0 && Inv(s) && LedgersBalance(cfg, s)
    requires cfg.onResync.Ignore? ==> s.forgotten == {}
    ensures LedgersBalance(cfg, Next(cfg, s, Dequeue))
  {
    hide Verdict, Settle, Uncounted, Reportable;
    if s.queue != [] && s.queue[0].Depth? {
      var item := s.queue[0];
      var r := Verdict(s.last, cfg.tolerance, item.Key(), item.Number());
      HeadIsNext(s);
      assert item.symbol in s.ledgers <==> item.symbol in s.delivered;
      if item.prior.Some? {
        HeadReports(cfg, s);
        UpdateBalances(s.ledgers[item.symbol], item, r);
        ReportableSign(item);
      }
    }
  }

  lemma ReportableSign(item: Item)
    requires item.Depth?
    ensures Reportable(item) >= 0
  {
  }

  lemma StepBalances(cfg: Config, s: State, step: Step)
    requires cfg.tolerance >= 0 && Inv(s) && LedgersBalance(cfg, s)
    requires cfg.onResync.Ignore? ==> s.forgotten == {}
    ensures LedgersBalance(cfg, Next(cfg, s, step))
  {
    hide Inv, Verdict, Advance, ForgetVenue;
    if step.Dequeue? {
      DequeueBalances(cfg, s);
    }
  }

  lemma {:induction false} ReachableLedgersBalance(cfg: Config, run: Run)
    requires cfg.tolerance >= 0 && Possible(cfg, run)
    ensures LedgersBalance(cfg, StateAfter(cfg, run))
  {
    match run
    case Begin =>
    case Then(prev, step) =>
      ReachableLedgersBalance(cfg, prev);
      ReachableInv(cfg, prev);
      if cfg.onResync.Ignore? { NothingForgotten(cfg, prev); }
      hide Inv, Possible, StateAfter, LedgersBalance, Next;
      StateAfterThen(cfg, prev, step);
      StepBalances(cfg, StateAfter(cfg, prev), step);
  }

  ghost predicate NothingLost(s: State) {
    forall sym :: sym in s.ledgers ==> s.ledgers[sym].lost == 0
  }

  lemma StepLosesNothing(cfg: Config, s: State, step: Step)
    requires Clean(s) && NothingLost(s)
    ensures NothingLost(Next(cfg, s, step))
  {
    hide Verdict, Settle, Advance, ForgetVenue, Reportable;
    if step.Dequeue? && s.queue != [] && s.queue[0].Depth? {
      assert s.queue[0].prior == s.queue[0].before;
    }
  }

  lemma {:induction false} WellFormedRunsLoseNothing(cfg: Config, run: Run)
    requires NoMalformed(run) && Possible(cfg, run)
    ensures NothingLost(StateAfter(cfg, run))
  {
    match run
    case Begin =>
    case Then(prev, step) =>
      hide Clean, Next, Allowed, NothingLost;
      WellFormedRunsLoseNothing(cfg, prev);
      WellFormedRunsAreClean(cfg, prev);
      StepLosesNothing(cfg, StateAfter(cfg, prev), step);
  }

  /** Between two cursors of a symbol the ids move at least as far as the dense number. */
  ghost predicate MovesFurther(from: Cursor, to: Cursor) {
    to.lastFinal - from.lastFinal >= to.dense - from.dense >= 0
  }

  ghost predicate IdsAhead(s: State) {
    && (forall sym :: sym in s.enqueued && sym in s.cursors ==> MovesFurther(s.enqueued[sym], s.cursors[sym]))
    && (forall i :: 0 <= i < |s.queue| && s.queue[i].Depth? && s.queue[i].prior.Some? && s.queue[i].before.Some? ==>
          MovesFurther(s.queue[i].prior.value, s.queue[i].before.value))
    && (forall sym :: sym in s.ledgers ==> s.ledgers[sym].lost >= 0)
  }

  lemma AdvanceMovesFurther(c: Cursor, firstId: int, finalId: int)
    requires firstId <= finalId
    ensures MovesFurther(c, Advance(Some(c), firstId, finalId)) && MovesFurther(c, c)
  {
  }

  lemma DecodeKeepsIdsAhead(cfg: Config, s: State, step: Step)
    requires IdsAhead(s) && CursorsAhead(s.cursors, s.enqueued) && step.Decode? && step.firstId <= step.finalId
    ensures IdsAhead(Next(cfg, s, step))
  {
    hide Advance;
    if step.symbol in s.cursors {
      AdvanceMovesFurther(s.cursors[step.symbol], step.firstId, step.finalId);
    }
  }

  lemma DequeueKeepsIdsAhead(cfg: Config, s: State)
    requires IdsAhead(s)
    ensures IdsAhead(Next(cfg, s, Dequeue))
  {
    hide Verdict, Settle, Reportable;
  }

  lemma StepKeepsIdsAhead(cfg: Config, s: State, step: Step)
    requires IdsAhead(s) && CursorsAhead(s.cursors, s.enqueued) && (step.Decode? ==> step.firstId <= step.finalId)
    ensures IdsAhead(Next(cfg, s, step))
  {
    hide MovesFurther;
    match step
    case Decode(_, _, _, _) => DecodeKeepsIdsAhead(cfg, s, step);
    case Dequeue => DequeueKeepsIdsAhead(cfg, s);
    case _ =>
  }

  lemma {:induction false} ReachableIdsAhead(cfg: Config, run: Run)
    requires cfg.tolerance >= 0 && Possible(cfg, run) && OrderedRanges(run)
    ensures IdsAhead(StateAfter(cfg, run))
  {
    match run
    case Begin =>
    case Then(prev, step) =>
      hide Next, IdsAhead, Linked, DetectorKnows, CursorsAhead, Allowed;
      ReachableIdsAhead(cfg, prev);
      ReachableInv(cfg, prev);
      StepKeepsIdsAhead(cfg, StateAfter(cfg, prev), step);
  }

  lemma StateAfterThen(cfg: Config, prev: Run, step: Step)
    ensures StateAfter(cfg, Then(prev, step)) == Next(cfg, StateAfter(cfg, prev), step)
  {
  }

  ghost predicate NoneQueued(queue: seq<Item>, sym: string) {
    forall i :: 0 <= i < |queue| ==> queue[i].Key() != DepthKey(sym)
  }

  /** Once a symbol's updates have drained, decode failures or not: the cursor as of the
      latest of them has advanced by the widths of the accepted ranges, plus everything
      the detector reported missing, plus the new tails of overlapping retransmits, plus
      (with the wired hook only) what was skipped right after a reported gap, plus what
      lost frames covered beyond what they counted for. That last term is never negative
      as long as ranges run forwards, and zero without decode failures, when the latest
      update's cursor is the adapter's own. */
  lemma AdvanceIsAccountedFor(cfg: Config, run: Run, sym: string)
    requires cfg.tolerance >= 0 && Possible(cfg, run)
    requires NoneQueued(StateAfter(cfg, run).queue, sym)
    ensures var s := StateAfter(cfg, run);
            && (sym in s.enqueued <==> sym in s.ledgers)
            && (sym in s.enqueued ==>
                  && s.enqueued[sym].lastFinal == s.ledgers[sym].Total()
                  && s.ledgers[sym].hidden >= 0
                  && (cfg.onResync.Ignore? ==> s.ledgers[sym].hidden == 0)
                  && (OrderedRanges(run) ==> s.ledgers[sym].lost >= 0)
                  && (NoMalformed(run) ==> s.ledgers[sym].lost == 0))
            && (NoMalformed(run) && !s.resetting ==> s.enqueued == s.cursors)
  {
    hide StateAfter, Possible, NoMalformed, OrderedRanges;
    var s := StateAfter(cfg, run);
    ReachableInv(cfg, run);
    ReachableLedgersBalance(cfg, run);
    if NoMalformed(run) {
      WellFormedRunsAreClean(cfg, run);
      WellFormedRunsLoseNothing(cfg, run);
    }
    if OrderedRanges(run) { ReachableIdsAhead(cfg, run); }
    DrainedOfOthers(s.delivered, s.queue, sym);
    assert Lookup(s.enqueued, sym) == Lookup(s.delivered, sym);
  }

  lemma {:induction false} DrainedOfOthers(delivered: map<string, Cursor>, queue: seq<Item>, sym: string)
    requires forall i :: 0 <= i < |queue| ==> queue[i].Key() != DepthKey(sym)
    ensures Drained(delivered, queue, sym) == Lookup(delivered, sym)
  {
    if queue != [] {
      DrainedOfOthers(delivered, queue[..|queue| - 1], sym);
    }
  }

  // ---- What a decode failure can hide ----

  lemma StartsAt(cfg: Config)
    ensures StateAfter(cfg, Begin) == INITIAL
  {
  }

  lemma StepsTo(cfg: Config, run: Run, s: State)
    requires run.Then? && Next(cfg, StateAfter(cfg, run.prev), run.step) == s
    ensures StateAfter(cfg, run) == s
  {
  }

  /** A frame lost to a decode error and then a retransmit: the loss goes unreported. */
  lemma LostFrameThenRetransmitLooksFine(cfg: Config, u: int)
    requires cfg.tolerance >= 0
    ensures var run := Then(Then(Then(Begin, Decode("s", u, u, false)), Dequeue), Decode("s", u + 1, u + 1, true));
            var again := Then(run, Decode("s", u + 1, u + 1, false));
            && Possible(cfg, again)
            && StateAfter(cfg, again).queue != []
            && HeadVerdict(cfg, StateAfter(cfg, again)).status.OK?
  {
    var c0, c1, l0 := Cursor(u, 0), Cursor(u + 1, 1), Ledger(u, 0, 0, 0, 0, 0);
    var d0, d1 := Depth("s", u, u, None, None, c0), Depth("s", u + 1, u + 1, Some(c0), Some(c1), c1);
    var k := map[DepthKey("s") := 0];
    var r1 := Then(Begin, Decode("s", u, u, false));
    var r2 := Then(r1, Dequeue);
    var r3 := Then(r2, Decode("s", u + 1, u + 1, true));
    var r4 := Then(r3, Decode("s", u + 1, u + 1, false));
    StepsTo(cfg, r1, State(map["s" := c0], [d0], map[], false, map["s" := c0], map[], map[], {}));
    assert Possible(cfg, r1);
    StepsTo(cfg, r2, State(map["s" := c0], [], k, false, map["s" := c0], map["s" := c0], map["s" := l0], {}));
    assert Possible(cfg, r2);
    StepsTo(cfg, r3, State(map["s" := c1], [], k, false, map["s" := c0], map["s" := c0], map["s" := l0], {}));
    assert Possible(cfg, r3);
    StepsTo(cfg, r4, State(map["s" := c1], [d1], k, false, map["s" := c1], map["s" := c0], map["s" := l0], {}));
  }
}
