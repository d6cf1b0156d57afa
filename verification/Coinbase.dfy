/** Coinbase numbers the envelope, not the events inside it: of what a frame yields,
    one event is numbered and the others are not. */
module Coinbase {
  import opened Events
  import opened Gap
  import opened IngestPipeline

  const VENUE: string := "coinbase"

  /** Numbers arrive as text; `None` is text that does not parse. */
  datatype RawTrade = RawTrade(
    tradeId: string, symbol: string, price: Option<real>, size: Option<real>, side: string, timeUs: int)

  datatype RawUpdate = RawUpdate(side: string, timeUs: int, price: Option<real>, quantity: Option<real>)

  datatype L2Event = L2Event(isSnapshot: bool, symbol: string, updates: seq<RawUpdate>)

  datatype Decoded =
    | TradeEvent(trade: Trade)
    | BookEvent(delta: BookDelta)
  {
    function Sequence(): int { if TradeEvent? then trade.sequence else delta.sequence }

    function Venue(): string { if TradeEvent? then trade.venue else delta.venue }
  }

  const BUY_SIDES := {"b", "B", "buy", "BUY", "Buy", "bid", "BID"}
  const SELL_SIDES := {"s", "S", "sell", "SELL", "Sell", "ask", "ASK", "offer", "OFFER"}

  function NormalizeSide(s: string): string {
    if s in BUY_SIDES then "BUY" else if s in SELL_SIDES then "SELL" else "UNKNOWN"
  }

  /** The number for position i of a frame's events. */
  function SeqFor(sequenceNum: int, i: nat): int {
    if i == 0 then sequenceNum else NO_SEQUENCE
  }

  /** A frame's events as the decoders stamp them. */
  ghost predicate Stamped(out: seq<Decoded>, sequenceNum: int) {
    forall i :: 0 <= i < |out| ==> out[i].Venue() == VENUE && out[i].Sequence() == SeqFor(sequenceNum, i)
  }

  predicate Parses(t: RawTrade) { t.price.Some? && t.size.Some? }

  function TradeOf(t: RawTrade, sequence: int, ingestUs: int): Trade
    requires Parses(t)
  {
    Trade(VENUE, t.symbol, t.tradeId, t.price.value, t.size.value, NormalizeSide(t.side), t.timeUs, ingestUs, sequence)
  }

  function Flatten(events: seq<seq<RawTrade>>): seq<RawTrade> {
    if events == [] then [] else Flatten(events[..|events| - 1]) + events[|events| - 1]
  }

  /** A frame's trades in order, the first carrying the envelope's number. */
  ghost predicate StampedTrades(out: seq<Decoded>, trades: seq<RawTrade>, sequenceNum: int, ingestUs: int) {
    && |out| == |trades|
    && forall i :: 0 <= i < |out| ==>
         Parses(trades[i]) && out[i] == TradeEvent(TradeOf(trades[i], SeqFor(sequenceNum, i), ingestUs))
  }

  /** Rejects the whole frame when any trade does not parse. */
  method DecodeTrades(sequenceNum: int, events: seq<seq<RawTrade>>, ingestUs: int)
    returns (out: Option<seq<Decoded>>)
    ensures out.Some? <==> forall i :: 0 <= i < |Flatten(events)| ==> Parses(Flatten(events)[i])
    ensures out.Some? ==> StampedTrades(out.value, Flatten(events), sequenceNum, ingestUs)
    ensures out.Some? ==> Stamped(out.value, sequenceNum)
  {
    var acc: seq<Decoded> := [];
    var firstOfFrame := true;
    for e := 0 to |events|
      invariant StampedTrades(acc, Flatten(events[..e]), sequenceNum, ingestUs)
      invariant firstOfFrame <==> acc == []
    {
      var trades := events[e];
      ghost var before := Flatten(events[..e]);
      assert events[..e + 1][..e] == events[..e];
      assert Flatten(events[..e + 1]) == before + trades;
      for k := 0 to |trades|
        invariant StampedTrades(acc, before + trades[..k], sequenceNum, ingestUs)
        invariant firstOfFrame <==> acc == []
      {
        var t := trades[k];
        if !Parses(t) {
          FlattenMember(events, e, k);
          return None;
        }
        var sequence := if firstOfFrame then sequenceNum else NO_SEQUENCE;
        firstOfFrame := false;
        assert before + trades[..k + 1] == before + trades[..k] + [t];
        acc := acc + [TradeEvent(TradeOf(t, sequence, ingestUs))];
      }
      assert trades[..|trades|] == trades;
    }
    assert events[..|events|] == events;
    return Some(acc);
  }

  lemma {:induction false} FlattenMember(events: seq<seq<RawTrade>>, e: nat, k: nat)
    requires e < |events| && k < |events[e]|
    ensures exists i :: 0 <= i < |Flatten(events)| && Flatten(events)[i] == events[e][k]
  {
    var n := |events| - 1;
    if e == n {
      assert Flatten(events)[|Flatten(events[..n])| + k] == events[e][k];
    } else {
      FlattenMember(events[..n], e, k);
      var i :| 0 <= i < |Flatten(events[..n])| && Flatten(events[..n])[i] == events[e][k];
      assert Flatten(events)[i] == events[e][k];
    }
  }

  // ---- Book frames ----

  function LevelOf(u: RawUpdate): Level { Level(u.price.GetOr(0.0), u.quantity.GetOr(0.0)) }

  /** The levels of one side, in order; whatever is not a buy is an ask. */
  function SideLevels(updates: seq<RawUpdate>, buys: bool): seq<Level> {
    if updates == [] then []
    else
      var n := |updates| - 1;
      SideLevels(updates[..n], buys) +
      if (NormalizeSide(updates[n].side) == "BUY") == buys then [LevelOf(updates[n])] else []
  }

  /** What a level update says: the venue's words for the two sides put it with the bids or
      with the asks, and its price and size are the numbers the two texts parse to, or zero
      when one does not parse. */
  lemma UpdateIsLevel(u: RawUpdate, buys: bool)
    ensures u.side == "bid" ==> |SideLevels([u], buys)| == if buys then 1 else 0
    ensures u.side == "offer" ==> |SideLevels([u], buys)| == if buys then 0 else 1
    ensures forall l :: l in SideLevels([u], buys) ==>
              && (if u.price.Some? then u.price == Some(l.price) else l.price == 0.0)
              && (if u.quantity.Some? then u.quantity == Some(l.size) else l.size == 0.0)
  {
    assert [u][..0] == [];
  }

  /** Each update puts one level on one of the two sides, after those before it. */
  lemma UpdatesSplit(updates: seq<RawUpdate>, u: RawUpdate, buys: bool)
    ensures SideLevels(updates + [u], buys) == SideLevels(updates, buys) + SideLevels([u], buys)
    ensures |SideLevels([u], true)| + |SideLevels([u], false)| == 1
  {
    assert (updates + [u])[..|updates|] == updates;
    assert [u][..0] == [];
  }

  /** What a decoded trade says, in the text's own numbers and words. */
  lemma TradeIsText(t: RawTrade, sequence: int, ingestUs: int)
    requires Parses(t)
    ensures var d := TradeOf(t, sequence, ingestUs);
            && d.venue == VENUE && d.symbol == t.symbol && d.tradeId == t.tradeId
            && t.price == Some(d.price) && t.size == Some(d.size)
            && d.eventTimeUs == t.timeUs && d.ingestTimeUs == ingestUs && d.sequence == sequence
            && (t.side in {"BUY", "Buy", "buy", "B", "b", "BID", "bid"} <==> d.side == "BUY")
            && (t.side in {"SELL", "Sell", "sell", "S", "s", "ASK", "ask", "OFFER", "offer"} <==> d.side == "SELL")
            && (d.side != "BUY" && d.side != "SELL" ==> d.side == "UNKNOWN")
  {
  }

  function NonEmpty(events: seq<L2Event>): seq<L2Event> {
    if events == [] then []
    else
      var n := |events| - 1;
      NonEmpty(events[..n]) + if events[n].updates == [] then [] else [events[n]]
  }

  ghost predicate IsDeltaOf(d: Decoded, ev: L2Event, sequence: int, ingestUs: int) {
    && d.BookEvent? && ev.updates != []
    && d.delta.venue == VENUE && d.delta.symbol == ev.symbol && d.delta.isSnapshot == ev.isSnapshot
    && d.delta.eventTimeUs == ev.updates[0].timeUs && d.delta.ingestTimeUs == ingestUs
    && d.delta.sequence == sequence
    && d.delta.Bids() == SideLevels(ev.updates, true)
    && d.delta.Asks() == SideLevels(ev.updates, false)
  }

  /** An event without updates is skipped and does not use up the frame's number. */
  method DecodeL2(sequenceNum: int, events: seq<L2Event>, ingestUs: int) returns (out: seq<Decoded>)
    ensures |out| == |NonEmpty(events)|
    ensures forall i :: 0 <= i < |out| ==>
              IsDeltaOf(out[i], NonEmpty(events)[i], SeqFor(sequenceNum, i), ingestUs)
    ensures Stamped(out, sequenceNum)
  {
    hide Stamped, SideLevels, NormalizeSide;
    out := [];
    var firstOfFrame := true;
    for e := 0 to |events|
      invariant |out| == |NonEmpty(events[..e])|
      invariant firstOfFrame <==> out == []
      invariant forall i :: 0 <= i < |out| ==>
                  IsDeltaOf(out[i], NonEmpty(events[..e])[i], SeqFor(sequenceNum, i), ingestUs)
    {
      var ev := events[e];
      assert events[..e + 1][..e] == events[..e];
      if |ev.updates| == 0 {
        continue;
      }
      var sequence := if firstOfFrame then sequenceNum else NO_SEQUENCE;
      firstOfFrame := false;
      var bids, asks := SplitSides(ev.updates);
      var d := BookEvent(BookDelta(
        VENUE, ev.symbol, ev.isSnapshot,
        seq(|bids|, i requires 0 <= i < |bids| => bids[i].price),
        seq(|bids|, i requires 0 <= i < |bids| => bids[i].size),
        seq(|asks|, i requires 0 <= i < |asks| => asks[i].price),
        seq(|asks|, i requires 0 <= i < |asks| => asks[i].size),
        ev.updates[0].timeUs, ingestUs, sequence));
      assert d.delta.Bids() == bids && d.delta.Asks() == asks;
      out := out + [d];
    }
    assert events[..|events|] == events;
    DeltasAreStamped(out, NonEmpty(events), sequenceNum, ingestUs);
  }

  lemma DeltasAreStamped(out: seq<Decoded>, events: seq<L2Event>, sequenceNum: int, ingestUs: int)
    requires |out| == |events|
    requires forall i :: 0 <= i < |out| ==> IsDeltaOf(out[i], events[i], SeqFor(sequenceNum, i), ingestUs)
    ensures Stamped(out, sequenceNum)
  {
    hide SeqFor, SideLevels, NormalizeSide;
  }

  method SplitSides(updates: seq<RawUpdate>) returns (bids: seq<Level>, asks: seq<Level>)
    ensures bids == SideLevels(updates, true) && asks == SideLevels(updates, false)
  {
    bids, asks := [], [];
    for k := 0 to |updates|
      invariant bids == SideLevels(updates[..k], true) && asks == SideLevels(updates[..k], false)
    {
      assert updates[..k + 1][..k] == updates[..k];
      if NormalizeSide(updates[k].side) == "BUY" {
        bids := bids + [LevelOf(updates[k])];
      } else {
        asks := asks + [LevelOf(updates[k])];
      }
    }
    assert updates[..|updates|] == updates;
  }

  // ---- A connection's worth of frames, through the continuity check ----

  predicate Scoped(cfg: Config) { VENUE in cfg.connectionScoped }

  const CONNECTION: Key := Key(VENUE, "", "connection")

  /** The pipeline's event for a decoded one, given its encoder. */
  function EventOf(encode: Decoded -> Option<string>, d: Decoded): Event {
    match d
    case TradeEvent(t) =>
      Event(TradeKind, t.venue, t.symbol, t.sequence, Some(Payload(t.eventTimeUs, encode(d))))
    case BookEvent(b) =>
      Event(BookDeltaKind, b.venue, b.symbol, b.sequence, Some(Payload(b.eventTimeUs, encode(d))))
  }

  function EventsOf(encode: Decoded -> Option<string>, out: seq<Decoded>): seq<Event> {
    seq(|out|, i requires 0 <= i < |out| => EventOf(encode, out[i]))
  }

  /** A decoded event that is framed goes to its kind's topic under its own symbol, venue
      and time, with what the encoder made of it. */
  lemma DecodedIsFramed(cfg: Config, encode: Decoded -> Option<string>, d: Decoded)
    requires IngestPipeline.Frame(cfg, EventOf(encode, d)).Some?
    ensures var m := IngestPipeline.Frame(cfg, EventOf(encode, d)).value;
            && encode(d) == Some(m.value)
            && (d.TradeEvent? ==> TradeKind in cfg.topics && m.topic == cfg.topics[TradeKind]
                                  && (m.key, m.venue, m.timeUs) == (d.trade.symbol, d.trade.venue, d.trade.eventTimeUs))
            && (d.BookEvent? ==> BookDeltaKind in cfg.topics && m.topic == cfg.topics[BookDeltaKind]
                                 && (m.key, m.venue, m.timeUs) == (d.delta.symbol, d.delta.venue, d.delta.eventTimeUs))
  {
  }

  /** An event of which only the number is known. */
  function Numbered(number: int): Event { Event(TradeKind, VENUE, "", number, None) }

  /** On a connection-scoped venue the check sees an event's number and nothing else. */
  lemma OnlyNumbersAreChecked(cfg: Config, tolerance: int, last: Last, stats: Stats, ev: Event)
    requires Scoped(cfg) && ev.venue == VENUE
    ensures CheckSequence(cfg, tolerance, last, stats, ev) ==
            CheckSequence(cfg, tolerance, last, stats, Numbered(ev.sequence))
  {
  }

  /** The check over one frame's numbers. */
  function CheckFrame(cfg: Config, tolerance: int, c: Checked, numbers: seq<int>): Checked {
    if numbers == [] then c
    else
      var n := |numbers| - 1;
      var before := CheckFrame(cfg, tolerance, c, numbers[..n]);
      CheckSequence(cfg, tolerance, before.last, before.stats, Numbered(numbers[n]))
  }

  function Numbers(sequenceNum: int, count: nat): seq<int> {
    seq(count, i requires 0 <= i => SeqFor(sequenceNum, i))
  }

  /** Whatever a frame decodes to, trades or book deltas of any symbols, the check
      judges it by the envelope's number followed by unsequenced ones. */
  lemma {:induction false} DecodedFrameChecks(
      cfg: Config, tolerance: int, c: Checked, encode: Decoded -> Option<string>, out: seq<Decoded>, sequenceNum: int)
    requires Scoped(cfg) && Stamped(out, sequenceNum)
    ensures CheckAll(cfg, tolerance, c, EventsOf(encode, out)) ==
            CheckFrame(cfg, tolerance, c, Numbers(sequenceNum, |out|))
  {
    var events, numbers := EventsOf(encode, out), Numbers(sequenceNum, |out|);
    if out == [] {
      assert events == [] && numbers == [];
    } else {
      hide CheckSequence, SeqFor;
      var n := |out| - 1;
      assert events[..n] == EventsOf(encode, out[..n]) && numbers[..n] == Numbers(sequenceNum, n);
      DecodedFrameChecks(cfg, tolerance, c, encode, out[..n], sequenceNum);
      var before := CheckFrame(cfg, tolerance, c, numbers[..n]);
      OnlyNumbersAreChecked(cfg, tolerance, before.last, before.stats, events[n]);
    }
  }

  /** Frames as the detector sees them: the envelope's number and how many events the
      frame yielded (none for a heartbeat, an acknowledgement or a rejected frame). */
  datatype Feed = Quiet | Frame(prev: Feed, sequenceNum: int, count: nat)

  const UNCHECKED := Checked(false, map[], NO_STATS)

  function CheckFeed(cfg: Config, tolerance: int, feed: Feed): Checked {
    match feed
    case Quiet => UNCHECKED
    case Frame(prev, s, count) => CheckFrame(cfg, tolerance, CheckFeed(cfg, tolerance, prev), Numbers(s, count))
  }

  /** The decoded frames of a connection. */
  datatype Connection = Opened | Received(prev: Connection, sequenceNum: int, out: seq<Decoded>)

  function EventsReceived(encode: Decoded -> Option<string>, conn: Connection): seq<Event> {
    match conn
    case Opened => []
    case Received(prev, _, out) => EventsReceived(encode, prev) + EventsOf(encode, out)
  }

  ghost predicate AllStamped(conn: Connection) {
    match conn
    case Opened => true
    case Received(prev, s, out) => AllStamped(prev) && Stamped(out, s)
  }

  function FeedOf(conn: Connection): Feed {
    match conn
    case Opened => Quiet
    case Received(prev, s, out) => Frame(FeedOf(prev), s, |out|)
  }

  /** Checking everything a connection's frames decode to is checking its feed. */
  lemma {:induction false} DecodedConnectionChecks(
      cfg: Config, tolerance: int, encode: Decoded -> Option<string>, conn: Connection)
    requires Scoped(cfg) && AllStamped(conn)
    ensures CheckAll(cfg, tolerance, UNCHECKED, EventsReceived(encode, conn)) ==
            CheckFeed(cfg, tolerance, FeedOf(conn))
  {
    match conn
    case Opened =>
    case Received(prev, s, out) =>
      hide CheckFrame, Stamped;
      DecodedConnectionChecks(cfg, tolerance, encode, prev);
      CheckAllConcat(cfg, tolerance, UNCHECKED, EventsReceived(encode, prev), EventsOf(encode, out));
      DecodedFrameChecks(cfg, tolerance, CheckFeed(cfg, tolerance, FeedOf(prev)), encode, out, s);
  }

  /** The numbers of the frames that yielded anything. */
  function Carried(feed: Feed): seq<int> {
    match feed
    case Quiet => []
    case Frame(prev, s, count) => Carried(prev) + if count > 0 then [s] else []
  }

  function EventCount(feed: Feed): nat {
    match feed
    case Quiet => 0
    case Frame(prev, _, count) => EventCount(prev) + count
  }

  ghost predicate Increasing(feed: Feed) { Rising(Carried(feed)) && NonNegative(Carried(feed)) }

  lemma IncreasingStep(prev: Feed, s: int, count: nat)
    requires Increasing(Frame(prev, s, count)) && count > 0
    ensures var ns := Carried(Frame(prev, s, count));
            && Increasing(prev) && ns != [] && ns[..|ns| - 1] == Carried(prev)
            && ns[|ns| - 1] == s >= 0 && (|ns| > 1 ==> ns[|ns| - 2] < s)
            && LeftOut(ns) == LeftOut(Carried(prev)) + Skipped(ns)
  {
    hide LeftOut, Skipped, Rising, NonNegative;
    var ns := Carried(Frame(prev, s, count));
    assert ns == Carried(prev) + [s] && ns[..|ns| - 1] == Carried(prev);
    RisingAppend(Carried(prev), s);
  }

  lemma {:induction false} UnsequencedLeaveNoMark(cfg: Config, tolerance: int, c: Checked, numbers: seq<int>)
    requires Scoped(cfg) && numbers != [] && forall i :: 0 < i < |numbers| ==> numbers[i] == NO_SEQUENCE
    ensures var one := CheckFrame(cfg, tolerance, c, numbers[..1]);
            CheckFrame(cfg, tolerance, c, numbers).last == one.last
            && CheckFrame(cfg, tolerance, c, numbers).stats == one.stats
  {
    if |numbers| > 1 {
      var n := |numbers| - 1;
      assert numbers[..n][..1] == numbers[..1];
      UnsequencedLeaveNoMark(cfg, tolerance, c, numbers[..n]);
    } else {
      assert numbers[..1] == numbers;
    }
  }

  /** One yielding frame is judged by its envelope's number alone. */
  lemma FrameIsItsNumber(cfg: Config, tolerance: int, c: Checked, s: int, count: nat)
    requires Scoped(cfg) && count > 0
    ensures var after := CheckFrame(cfg, tolerance, c, Numbers(s, count));
            var one := CheckSequence(cfg, tolerance, c.last, c.stats, Numbered(s));
            after.last == one.last && after.stats == one.stats
  {
    hide CheckSequence;
    UnsequencedLeaveNoMark(cfg, tolerance, c, Numbers(s, count));
    assert Numbers(s, count)[..1] == [s];
    assert [s][..0] == [];
    assert CheckFrame(cfg, tolerance, c, [s]) == CheckSequence(cfg, tolerance, c.last, c.stats, Numbered(s));
  }

  /** What the check knows after numbers that rise from nothing. */
  ghost predicate Tallied(cfg: Config, c: Checked, ns: seq<int>) {
    && c.stats.duplicates == 0
    && c.stats.gaps == (if cfg.onResync.ForgetStream? then Reports(ns) else Jumps(ns))
    && c.stats.missed == (if cfg.onResync.ForgetStream? then ReportedMissing(ns) else LeftOut(ns))
    && Follows(cfg.onResync, c.last, CONNECTION, ns)
  }

  lemma FrameTally(cfg: Config, tolerance: int, c: Checked, prev: Feed, s: int, count: nat)
    requires Scoped(cfg) && Increasing(Frame(prev, s, count)) && count > 0 && Tallied(cfg, c, Carried(prev))
    ensures Tallied(cfg, CheckFrame(cfg, tolerance, c, Numbers(s, count)), Carried(Frame(prev, s, count)))
    ensures !Verdict(c.last, tolerance, CONNECTION, s).status.Regression?
  {
    hide Increasing, CheckSequence, CheckFrame, Follows, LeftOut, Skipped, Reported, Carried, Verdict, Jumps, Reports;
    IncreasingStep(prev, s, count);
    FrameIsItsNumber(cfg, tolerance, c, s, count);
    StepTally(cfg, tolerance, CONNECTION, c.last, c.stats, Numbered(s), Carried(Frame(prev, s, count)));
  }

  /** No yielding frame is judged to have gone back. */
  ghost predicate NeverRegresses(cfg: Config, tolerance: int, feed: Feed) {
    match feed
    case Quiet => true
    case Frame(prev, s, count) =>
      && NeverRegresses(cfg, tolerance, prev)
      && (count > 0 ==> !Verdict(CheckFeed(cfg, tolerance, prev).last, tolerance, CONNECTION, s).status.Regression?)
  }

  lemma {:induction false} FeedTally(cfg: Config, tolerance: int, feed: Feed)
    requires Scoped(cfg) && Increasing(feed)
    ensures Tallied(cfg, CheckFeed(cfg, tolerance, feed), Carried(feed)) && NeverRegresses(cfg, tolerance, feed)
  {
    hide Increasing, CheckFrame, Tallied, Carried, Verdict;
    match feed
    case Quiet => NothingTallied(cfg, tolerance);
    case Frame(prev, s, count) =>
      if count > 0 {
        IncreasingStep(prev, s, count);
        FeedTally(cfg, tolerance, prev);
        FrameTally(cfg, tolerance, CheckFeed(cfg, tolerance, prev), prev, s, count);
      } else {
        QuietFrame(cfg, tolerance, prev, s);
        FeedTally(cfg, tolerance, prev);
      }
  }

  lemma NothingTallied(cfg: Config, tolerance: int)
    ensures Tallied(cfg, CheckFeed(cfg, tolerance, Quiet), Carried(Quiet))
  {
  }

  lemma QuietFrame(cfg: Config, tolerance: int, prev: Feed, s: int)
    ensures Carried(Frame(prev, s, 0)) == Carried(prev)
    ensures Increasing(Frame(prev, s, 0)) == Increasing(prev)
    ensures CheckFeed(cfg, tolerance, Frame(prev, s, 0)) == CheckFeed(cfg, tolerance, prev)
  {
    assert Numbers(s, 0) == [];
    assert Carried(prev) + [] == Carried(prev);
  }

  /** Over any feed whose yielding frames carry strictly increasing numbers, under any
      hook and whether or not gapped events are dropped: nothing is a duplicate or a
      regression, and the gaps counted are the frames that skip numbers (with the wired
      hook, those of them that follow a remembered one). What is
      reported missed is, without a hook, exactly the numbers between the first and the
      last that no yielding frame carried; with the wired hook never more than that, and
      all of it exactly when no two consecutive yielding frames both skip numbers. */
  lemma NothingDroppedAndMissedIsExact(cfg: Config, tolerance: int, feed: Feed)
    requires Scoped(cfg) && Increasing(feed)
    ensures CheckFeed(cfg, tolerance, feed).stats.duplicates == 0 && NeverRegresses(cfg, tolerance, feed)
    ensures CheckFeed(cfg, tolerance, feed).stats.gaps ==
            if cfg.onResync.ForgetStream? then Reports(Carried(feed)) else Jumps(Carried(feed))
    ensures Carried(feed) == [] ==> CheckFeed(cfg, tolerance, feed).stats.missed == 0
    ensures Carried(feed) != [] ==>
              var ns, missed := Carried(feed), CheckFeed(cfg, tolerance, feed).stats.missed;
              var out := ns[|ns| - 1] - ns[0] + 1 - |ns|;
              && 0 <= missed <= out
              && (cfg.onResync.Ignore? ==> missed == out)
              && (cfg.onResync.ForgetStream? ==> (missed == out <==> NeverJumpsTwice(ns)))
  {
    hide CheckFeed, NeverJumpsTwice, Follows, NeverRegresses, Jumps, Reports;
    FeedTally(cfg, tolerance, feed);
    ForgettingUndercounts(Carried(feed));
  }

  // ---- The rule this replaced ----

  function StampedAll(s: int, count: nat): seq<int> {
    seq(count, _ => s)
  }

  function CheckFeedStampedAll(cfg: Config, tolerance: int, feed: Feed): Checked {
    match feed
    case Quiet => UNCHECKED
    case Frame(prev, s, count) =>
      CheckFrame(cfg, tolerance, CheckFeedStampedAll(cfg, tolerance, prev), StampedAll(s, count))
  }

  lemma {:induction false} RepeatsAreDuplicates(cfg: Config, tolerance: int, c: Checked, s: int, count: nat)
    requires Scoped(cfg) && tolerance >= 0 && s >= 0 && count > 0
    requires CONNECTION in c.last ==> c.last[CONNECTION] < s
    ensures var after := CheckFrame(cfg, tolerance, c, StampedAll(s, count));
            var dropped := after.stats.duplicates - c.stats.duplicates;
            && (CONNECTION in after.last ==> after.last[CONNECTION] == s)
            && count - 2 <= dropped <= count - 1 && dropped >= 0
            && (cfg.onResync.Ignore? || count > 1 ==> CONNECTION in after.last)
            && (cfg.onResync.Ignore? ==> dropped == count - 1)
  {
    hide CheckSequence, StampedAll;
    RepeatOnce(cfg, tolerance, c, s, count);
    if count == 1 {
      NothingToRepeat(cfg, tolerance, c, s);
      RepeatStep(cfg, tolerance, c, s);
    } else {
      RepeatsAreDuplicates(cfg, tolerance, c, s, count - 1);
      RepeatStep(cfg, tolerance, CheckFrame(cfg, tolerance, c, StampedAll(s, count - 1)), s);
    }
  }

  lemma RepeatOnce(cfg: Config, tolerance: int, c: Checked, s: int, count: nat)
    requires count > 0
    ensures var before := CheckFrame(cfg, tolerance, c, StampedAll(s, count - 1));
            CheckFrame(cfg, tolerance, c, StampedAll(s, count)) ==
            CheckSequence(cfg, tolerance, before.last, before.stats, Numbered(s))
  {
    hide CheckSequence;
    assert StampedAll(s, count)[..count - 1] == StampedAll(s, count - 1);
  }

  lemma RepeatStep(cfg: Config, tolerance: int, c: Checked, s: int)
    requires Scoped(cfg) && tolerance >= 0 && s >= 0
    requires CONNECTION in c.last ==> c.last[CONNECTION] <= s
    ensures var after := CheckSequence(cfg, tolerance, c.last, c.stats, Numbered(s));
            var seen := CONNECTION in c.last && c.last[CONNECTION] == s;
            && after.stats.duplicates == c.stats.duplicates + (if seen then 1 else 0)
            && (CONNECTION in after.last ==> after.last[CONNECTION] == s)
            && (cfg.onResync.Ignore? || seen || CONNECTION !in c.last ==> CONNECTION in after.last)
  {
  }

  /** Stamping every event with the envelope's number loses all but one event of every
      frame to duplicate suppression, on any increasing feed; a hook that forgets the
      stream spares at most one more per frame. */
  lemma {:induction false} StampingAllDropsTheRest(cfg: Config, tolerance: int, feed: Feed)
    requires Scoped(cfg) && tolerance >= 0 && Increasing(feed)
    ensures var c, ns := CheckFeedStampedAll(cfg, tolerance, feed), Carried(feed);
            && EventCount(feed) - 2 * |ns| <= c.stats.duplicates <= EventCount(feed) - |ns|
            && (cfg.onResync.Ignore? ==> c.stats.duplicates == EventCount(feed) - |ns|)
            && (CONNECTION in c.last ==> ns != [] && c.last[CONNECTION] == ns[|ns| - 1])
            && (cfg.onResync.Ignore? && ns != [] ==> CONNECTION in c.last)
  {
    match feed
    case Quiet =>
    case Frame(prev, s, count) =>
      hide Increasing, CheckFrame, CheckSequence;
      if count > 0 {
        IncreasingStep(prev, s, count);
        StampingAllDropsTheRest(cfg, tolerance, prev);
        RepeatsAreDuplicates(cfg, tolerance, CheckFeedStampedAll(cfg, tolerance, prev), s, count);
      } else {
        QuietFrame(cfg, tolerance, prev, s);
        NothingToRepeat(cfg, tolerance, CheckFeedStampedAll(cfg, tolerance, prev), s);
        StampingAllDropsTheRest(cfg, tolerance, prev);
      }
  }

  lemma NothingToRepeat(cfg: Config, tolerance: int, c: Checked, s: int)
    ensures CheckFrame(cfg, tolerance, c, StampedAll(s, 0)) == c
  {
  }
}
