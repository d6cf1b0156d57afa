/** Trades into bars: filter, key, tumbling event-time windows, aggregate, emit. */
module TradeWindows {
  import opened Events
  import opened Aggregates
  import opened SplitKey
  import opened Arithmetic

  predicate ValidTrade(t: Trade) {
    t.eventTimeUs > 0 && t.price > 0.0 && t.size >= 0.0 && t.symbol != ""
  }

  datatype Window = Window(key: string, startMs: int)

  /** Event time is assigned in whole milliseconds, windows start on multiples of the size. */
  function WindowOf(t: Trade, sizeMs: int): Window
    requires sizeMs > 0
  {
    var ms := t.eventTimeUs / 1000;
    Window(KeyOf(t.venue, t.symbol), ms - ms % sizeMs)
  }

  datatype WindowBar = WindowBar(
    venue: string, symbol: string, windowStartUs: int, windowEndUs: int,
    open: real, high: real, low: real, close: real, volume: real, vwap: Double, tradeCount: nat)

  function BarOf(w: Window, sizeMs: int, agg: TradeAggregate): Option<WindowBar> {
    if agg.count == 0 then None
    else
      var parts := Split(w.key);
      var named := if |parts| == 2 then (parts[0], parts[1]) else ("unknown", w.key);
      Some(WindowBar(named.0, named.1, w.startMs * 1000, (w.startMs + sizeMs) * 1000,
                     agg.open, agg.high, agg.low, agg.close, agg.volume, agg.Vwap(), agg.count))
  }

  type Accumulators = map<Window, TradeAggregate>

  function AfterTrade(accs: Accumulators, sizeMs: int, t: Trade): Accumulators
    requires sizeMs > 0
  {
    if !ValidTrade(t) then accs
    else
      var w := WindowOf(t, sizeMs);
      accs[w := (if w in accs then accs[w] else EMPTY).Add(t)]
  }

  function AfterAll(trades: seq<Trade>, sizeMs: int): Accumulators
    requires sizeMs > 0
  {
    if trades == [] then map[] else AfterTrade(AfterAll(trades[..|trades| - 1], sizeMs), sizeMs, trades[|trades| - 1])
  }

  /** Keyed window state, and the bars collected when windows fire. */
  class TradeBars {
    const sizeMs: int
    var accs: Accumulators
    var bars: seq<WindowBar>

    constructor (windowSeconds: int)
      requires windowSeconds > 0
      ensures sizeMs == windowSeconds * 1000 && accs == map[] && bars == []
    {
      sizeMs, accs, bars := windowSeconds * 1000, map[], [];
    }

    method Process(t: Trade)
      requires sizeMs > 0
      modifies this`accs
      ensures accs == AfterTrade(old(accs), sizeMs, t)
    {
      if !ValidTrade(t) {
        return;
      }
      var w := WindowOf(t, sizeMs);
      var acc := EMPTY;
      if w in accs {
        acc := accs[w];
      }
      accs := accs[w := acc.Add(t)];
    }

    /** Fires every window, in any order: one bar each, and nothing else. */
    method FireAll()
      modifies this`accs, this`bars
      ensures accs == map[]
      ensures exists order: seq<Window> :: IsOrderOf(order, old(accs).Keys)
                && bars == old(bars) + BarsInOrder(order, old(accs), sizeMs)
    {
      hide BarOf, BarsInOrder, IsOrderOf;
      var before := accs;
      var todo := before.Keys;
      ghost var order: seq<Window> := [];
      NoBarsYet(before, sizeMs);
      while todo != {}
        invariant Fired(order, before, todo)
        invariant bars == old(bars) + BarsInOrder(order, before, sizeMs)
        decreases |todo|
      {
        var w :| w in todo;
        OrderExtends(order, before, todo, sizeMs, w);
        var bar := BarOf(w, sizeMs, before[w]);
        if bar.Some? {
          bars := bars + [bar.value];
        }
        order, todo := order + [w], todo - {w};
      }
      assert before.Keys - todo == before.Keys;
      accs := map[];
    }
  }

  /** Lists a set, each member once. */
  ghost predicate IsOrderOf(order: seq<Window>, windows: set<Window>) {
    && (forall w :: w in order <==> w in windows)
    && (forall i, j :: 0 <= i < j < |order| ==> order[i] != order[j])
  }

  /** Every window but those left to do has fired, each once. */
  ghost predicate Fired(order: seq<Window>, accs: Accumulators, todo: set<Window>) {
    todo <= accs.Keys && IsOrderOf(order, accs.Keys - todo) && forall w :: w in order ==> w in accs
  }

  /** The bars of windows fired in an order; a window without trades yields none. */
  ghost function BarsInOrder(order: seq<Window>, accs: Accumulators, sizeMs: int): seq<WindowBar>
    requires forall w :: w in order ==> w in accs
  {
    if order == [] then []
    else
      var n := |order| - 1;
      assert order[n] in order;
      var bar := BarOf(order[n], sizeMs, accs[order[n]]);
      BarsInOrder(order[..n], accs, sizeMs) + if bar.Some? then [bar.value] else []
  }

  lemma NoBarsYet(accs: Accumulators, sizeMs: int)
    ensures Fired([], accs, accs.Keys) && BarsInOrder([], accs, sizeMs) == []
  {
  }

  lemma OrderExtends(order: seq<Window>, accs: Accumulators, todo: set<Window>, sizeMs: int, w: Window)
    requires Fired(order, accs, todo) && w in todo
    ensures Fired(order + [w], accs, todo - {w})
    ensures var bar := BarOf(w, sizeMs, accs[w]);
            BarsInOrder(order + [w], accs, sizeMs) ==
            BarsInOrder(order, accs, sizeMs) + if bar.Some? then [bar.value] else []
  {
    assert (order + [w])[..|order|] == order;
    assert forall i :: 0 <= i < |order| ==> order[i] in order;
  }

  // ---- Which trades a window holds ----

  function InWindow(trades: seq<Trade>, sizeMs: int, w: Window): seq<Trade>
    requires sizeMs > 0
  {
    if trades == [] then []
    else
      var init, t := trades[..|trades| - 1], trades[|trades| - 1];
      InWindow(init, sizeMs, w) + if ValidTrade(t) && WindowOf(t, sizeMs) == w then [t] else []
  }

  function Valid(trades: seq<Trade>): seq<Trade> {
    if trades == [] then []
    else
      var init, t := trades[..|trades| - 1], trades[|trades| - 1];
      Valid(init) + if ValidTrade(t) then [t] else []
  }

  lemma {:induction false} InWindowMembers(trades: seq<Trade>, sizeMs: int, w: Window)
    requires sizeMs > 0
    ensures forall t :: t in InWindow(trades, sizeMs, w) <==>
              t in trades && ValidTrade(t) && WindowOf(t, sizeMs) == w
  {
    if trades != [] {
      InWindowMembers(trades[..|trades| - 1], sizeMs, w);
      assert trades == trades[..|trades| - 1] + [trades[|trades| - 1]];
    }
  }

  /** Incremental keyed state is the fold of exactly the trades that belong there. */
  lemma {:induction false} WindowIsFoldOfItsTrades(trades: seq<Trade>, sizeMs: int, w: Window)
    requires sizeMs > 0
    ensures w in AfterAll(trades, sizeMs) <==> InWindow(trades, sizeMs, w) != []
    ensures w in AfterAll(trades, sizeMs) ==> AfterAll(trades, sizeMs)[w] == Fold(InWindow(trades, sizeMs, w))
  {
    if trades != [] {
      var init, t := trades[..|trades| - 1], trades[|trades| - 1];
      hide Fold, WindowOf, ValidTrade;
      WindowIsFoldOfItsTrades(init, sizeMs, w);
      FoldAppend(InWindow(init, sizeMs, w), t);
      FoldOfNothing();
      assert InWindow(init, sizeMs, w) + [] == InWindow(init, sizeMs, w);
    }
  }

  /** A window's bounds hold exactly the event times assigned to it. */
  lemma WindowBoundsIff(t: Trade, sizeMs: int, startMs: int)
    requires sizeMs > 0 && t.eventTimeUs > 0 && startMs % sizeMs == 0
    ensures startMs * 1000 <= t.eventTimeUs < (startMs + sizeMs) * 1000 <==> startMs == WindowOf(t, sizeMs).startMs
    ensures WindowOf(t, sizeMs).startMs % sizeMs == 0
  {
    var ms := t.eventTimeUs / 1000;
    assert startMs * 1000 <= t.eventTimeUs < (startMs + sizeMs) * 1000 <==> startMs <= ms < startMs + sizeMs;
    GridCell(ms, startMs, sizeMs);
  }

  /** Of the multiples of n, the one at or just below m is m - m % n. */
  lemma GridCell(m: nat, start: int, n: int)
    requires n > 0 && start % n == 0
    ensures start <= m < start + n <==> start == m - m % n
    ensures (m - m % n) % n == 0
  {
    var q, r, k := m / n, m % n, start / n;
    assert m == q * n + r && start == k * n;
    CellOf(q, r, k, n);
    MultipleMod(q, n);
  }

  lemma CellOf(q: int, r: int, k: int, n: int)
    requires 0 <= r < n
    ensures k * n <= q * n + r < k * n + n <==> k * n == q * n
  {
    assert (k + 1) * n == k * n + n && (q + 1) * n == q * n + n;
    MulCompare(q + 1, k, n);
    MulCompare(k + 1, q, n);
  }

  // ---- Conservation over all bars ----

  datatype Totals = Totals(count: int, volume: real, notional: real) {
    function Plus(a: TradeAggregate): Totals {
      Totals(count + a.count, volume + a.volume, notional + a.notional)
    }
  }

  ghost function Total(accs: Accumulators): Totals
    decreases |accs|
  {
    if accs == map[] then Totals(0, 0.0, 0.0)
    else
      var w :| w in accs;
      Total(accs - {w}).Plus(accs[w])
  }

  lemma {:induction false} TotalSplits(accs: Accumulators, w: Window)
    requires w in accs
    ensures Total(accs) == Total(accs - {w}).Plus(accs[w])
    decreases |accs|
  {
    var v :| v in accs && Total(accs) == Total(accs - {v}).Plus(accs[v]);
    if v != w {
      var rest := (accs - {v}) - {w};
      assert rest == (accs - {w}) - {v};
      TotalSplits(accs - {v}, w);
      TotalSplits(accs - {w}, v);
      assert Total(accs) == Total(rest).Plus(accs[w]).Plus(accs[v]);
      assert Total(accs - {w}) == Total(rest).Plus(accs[v]);
    }
  }

  lemma TotalAfterTrade(accs: Accumulators, sizeMs: int, t: Trade)
    requires sizeMs > 0 && ValidTrade(t)
    requires var w := WindowOf(t, sizeMs); w in accs ==> accs[w].count > 0
    ensures var before, after := Total(accs), Total(AfterTrade(accs, sizeMs, t));
            after == Totals(before.count + 1, before.volume + t.size, before.notional + t.Notional())
  {
    var w, accs' := WindowOf(t, sizeMs), AfterTrade(accs, sizeMs, t);
    TotalSplits(accs', w);
    assert accs' - {w} == accs - {w};
    if w in accs {
      TotalSplits(accs, w);
    } else {
      assert accs - {w} == accs;
    }
  }

  /** What all windows hold adds up to the valid input. */
  lemma {:induction false} WindowsConserveTotals(trades: seq<Trade>, sizeMs: int)
    requires sizeMs > 0
    ensures Total(AfterAll(trades, sizeMs)) ==
            Totals(|Valid(trades)|, Volume(Valid(trades)), NotionalOf(Valid(trades)))
  {
    if trades != [] {
      var init, t := trades[..|trades| - 1], trades[|trades| - 1];
      WindowsConserveTotals(init, sizeMs);
      if ValidTrade(t) {
        var w := WindowOf(t, sizeMs);
        WindowIsFoldOfItsTrades(init, sizeMs, w);
        FoldCount(InWindow(init, sizeMs, w));
        TotalAfterTrade(AfterAll(init, sizeMs), sizeMs, t);
        FoldAppend(Valid(init), t);
      } else {
        assert Valid(init) + [] == Valid(init);
      }
    } else {
      assert AfterAll([], sizeMs) == map[];
    }
  }

  function TradesIn(bars: seq<WindowBar>): int {
    if bars == [] then 0 else TradesIn(bars[..|bars| - 1]) + bars[|bars| - 1].tradeCount
  }

  function VolumeIn(bars: seq<WindowBar>): real {
    if bars == [] then 0.0 else VolumeIn(bars[..|bars| - 1]) + bars[|bars| - 1].volume
  }

  lemma BarsAppend(bars: seq<WindowBar>, bar: WindowBar)
    ensures TradesIn(bars + [bar]) == TradesIn(bars) + bar.tradeCount
    ensures VolumeIn(bars + [bar]) == VolumeIn(bars) + bar.volume
  {
    assert (bars + [bar])[..|bars|] == bars;
  }

  lemma {:induction false} BarsOfFewer(order: seq<Window>, accs: Accumulators, sizeMs: int, w: Window)
    requires w !in order && forall v :: v in order ==> v in accs
    ensures BarsInOrder(order, accs, sizeMs) == BarsInOrder(order, accs - {w}, sizeMs)
  {
    if order != [] {
      hide BarOf;
      var n := |order| - 1;
      assert order[n] in order;
      BarsOfFewer(order[..n], accs, sizeMs, w);
    }
  }

  lemma OrderShrinks(order: seq<Window>, windows: set<Window>)
    requires IsOrderOf(order, windows) && order != []
    ensures var n := |order| - 1;
            && order[n] in windows && order[n] !in order[..n]
            && IsOrderOf(order[..n], windows - {order[n]})
  {
    var n := |order| - 1;
    assert order[n] in order && order == order[..n] + [order[n]];
    assert forall i :: 0 <= i < n ==> order[..n][i] == order[i];
  }

  lemma {:induction false} BarsAddUp(order: seq<Window>, accs: Accumulators, sizeMs: int)
    requires IsOrderOf(order, accs.Keys) && forall w :: w in accs ==> accs[w].count > 0
    ensures TradesIn(BarsInOrder(order, accs, sizeMs)) == Total(accs).count
    ensures VolumeIn(BarsInOrder(order, accs, sizeMs)) == Total(accs).volume
  {
    hide IsOrderOf, Total, BarsInOrder, TradesIn, VolumeIn;
    if order == [] {
      NoBarsNoTotal(accs, sizeMs);
    } else {
      var n := |order| - 1;
      var w, rest := order[n], accs - {order[n]};
      OrderShrinks(order, accs.Keys);
      MembersOf(order, accs.Keys);
      assert rest.Keys == accs.Keys - {w};
      MembersOf(order[..n], rest.Keys);
      BarsAddUp(order[..n], rest, sizeMs);
      BarsOfFewer(order[..n], accs, sizeMs, w);
      LastBar(order, accs, sizeMs);
      TotalSplits(accs, w);
    }
  }

  lemma NoBarsNoTotal(accs: Accumulators, sizeMs: int)
    requires IsOrderOf([], accs.Keys)
    ensures TradesIn(BarsInOrder([], accs, sizeMs)) == Total(accs).count
    ensures VolumeIn(BarsInOrder([], accs, sizeMs)) == Total(accs).volume
  {
    assert accs == map[];
  }

  lemma LastBar(order: seq<Window>, accs: Accumulators, sizeMs: int)
    requires order != [] && (forall w :: w in order ==> w in accs) && order[|order| - 1] in accs
    requires accs[order[|order| - 1]].count > 0
    ensures var n := |order| - 1;
            var before := BarsInOrder(order[..n], accs, sizeMs);
            && TradesIn(BarsInOrder(order, accs, sizeMs)) == TradesIn(before) + accs[order[n]].count
            && VolumeIn(BarsInOrder(order, accs, sizeMs)) == VolumeIn(before) + accs[order[n]].volume
  {
    hide TradesIn, VolumeIn, Split;
    var n := |order| - 1;
    BarsAppend(BarsInOrder(order[..n], accs, sizeMs), BarOf(order[n], sizeMs, accs[order[n]]).value);
  }

  lemma MembersOf(order: seq<Window>, windows: set<Window>)
    requires IsOrderOf(order, windows)
    ensures forall w :: w in order <==> w in windows
  {
  }

  lemma WindowsHoldTrades(trades: seq<Trade>, sizeMs: int)
    requires sizeMs > 0
    ensures forall w :: w in AfterAll(trades, sizeMs) ==> AfterAll(trades, sizeMs)[w].count > 0
  {
    forall w | w in AfterAll(trades, sizeMs) ensures AfterAll(trades, sizeMs)[w].count > 0 {
      WindowIsFoldOfItsTrades(trades, sizeMs, w);
      FoldCount(InWindow(trades, sizeMs, w));
    }
  }

  /** In whatever order the windows fire, the trade counts and the volumes of the bars
      they emit add up to those of the valid input. */
  lemma BarsConserveTotals(trades: seq<Trade>, sizeMs: int, order: seq<Window>)
    requires sizeMs > 0 && IsOrderOf(order, AfterAll(trades, sizeMs).Keys)
    ensures var bars := BarsInOrder(order, AfterAll(trades, sizeMs), sizeMs);
            TradesIn(bars) == |Valid(trades)| && VolumeIn(bars) == Volume(Valid(trades))
  {
    hide AfterAll, Total, BarsInOrder, TradesIn, VolumeIn, Valid, Volume;
    WindowsHoldTrades(trades, sizeMs);
    WindowsConserveTotals(trades, sizeMs);
    BarsAddUp(order, AfterAll(trades, sizeMs), sizeMs);
  }

  // ---- Every bar ----

  /** Each window that holds anything yields a bar; its bounds contain exactly the
      valid trades of its key it was built from; its prices are in range; and a key
      without stray bars names its venue and symbol. */
  lemma EveryBarIsSound(trades: seq<Trade>, sizeMs: int, t: Trade)
    requires sizeMs > 0 && t in trades && ValidTrade(t)
    ensures var w := WindowOf(t, sizeMs);
            w in AfterAll(trades, sizeMs) && BarOf(w, sizeMs, AfterAll(trades, sizeMs)[w]).Some?
    ensures var w := WindowOf(t, sizeMs);
            var bar := BarOf(w, sizeMs, AfterAll(trades, sizeMs)[w]).value;
            && bar.windowStartUs <= t.eventTimeUs < bar.windowEndUs
            && bar.low <= bar.open <= bar.high && bar.low <= bar.close <= bar.high
            && bar.low <= t.price <= bar.high
            && (bar.vwap.Finite? <==> bar.volume > 0.0)
            && (bar.vwap.Finite? ==> bar.low <= bar.vwap.value <= bar.high)
            && (BAR !in t.venue && BAR !in t.symbol ==> bar.venue == t.venue && bar.symbol == t.symbol)
  {
    var w := WindowOf(t, sizeMs);
    var mine := InWindow(trades, sizeMs, w);
    InWindowMembers(trades, sizeMs, w);
    WindowIsFoldOfItsTrades(trades, sizeMs, w);
    assert t in mine;
    FoldDescribes(mine);
    PricesInRange(mine);
    WindowBoundsIff(t, sizeMs, 0);
    WindowBoundsIff(t, sizeMs, w.startMs);
    SplitKeyIff(t.venue, t.symbol);
  }

  /** What a bar says of the trades of its window: how many and how much, the price of one
      that nothing precedes and of one that nothing follows, the highest and the lowest
      price, the notional per unit traded, and bounds one window size apart. */
  lemma BarIsItsTrades(trades: seq<Trade>, sizeMs: int, w: Window)
    requires sizeMs > 0 && w in AfterAll(trades, sizeMs)
    ensures BarOf(w, sizeMs, AfterAll(trades, sizeMs)[w]).Some?
    ensures var bar, mine := BarOf(w, sizeMs, AfterAll(trades, sizeMs)[w]).value, InWindow(trades, sizeMs, w);
            && bar.tradeCount == |mine| && bar.volume == Volume(mine)
            && bar.windowStartUs == w.startMs * 1000 && bar.windowEndUs - bar.windowStartUs == sizeMs * 1000
            && (exists t :: t in mine && IsEarliest(mine, t) && t.price == bar.open)
            && (exists t :: t in mine && IsLatest(mine, t) && t.price == bar.close)
            && (exists t :: t in mine && t.price == bar.high)
            && (exists t :: t in mine && t.price == bar.low)
            && (forall t :: t in mine ==> bar.low <= t.price <= bar.high)
            && (bar.vwap.Finite? ==> bar.vwap.value * Volume(mine) == NotionalOf(mine))
            && (|Split(w.key)| != 2 ==> bar.venue == "unknown" && bar.symbol == w.key)
  {
    hide AfterAll, InWindow, Volume, NotionalOf, Fold, Split;
    var mine := InWindow(trades, sizeMs, w);
    WindowIsFoldOfItsTrades(trades, sizeMs, w);
    FoldDescribes(mine);
    InWindowMembers(trades, sizeMs, w);
    PricesInRange(mine);
    EndsOf(Fold(mine), mine);
    FoldCount(mine);
  }

  lemma EndsOf(a: TradeAggregate, trades: seq<Trade>)
    requires IsOpen(trades, a) && IsClose(trades, a)
    ensures exists t :: t in trades && IsEarliest(trades, t) && t.price == a.open
    ensures exists t :: t in trades && IsLatest(trades, t) && t.price == a.close
  {
    var f :| f in trades && f.eventTimeUs == a.firstEventTimeUs && f.price == a.open;
    var l :| l in trades && l.eventTimeUs == a.lastEventTimeUs && l.price == a.close;
    assert IsEarliest(trades, f) && IsLatest(trades, l);
  }

  /** A trade leaves the windows as they were exactly when it lacks a time, a price or a
      symbol, or its size is negative. */
  lemma IgnoredIff(accs: Accumulators, sizeMs: int, t: Trade)
    requires sizeMs > 0
    ensures AfterTrade(accs, sizeMs, t) == accs <==>
            t.eventTimeUs <= 0 || t.price <= 0.0 || t.size < 0.0 || t.symbol == ""
  {
    if ValidTrade(t) {
      var w := WindowOf(t, sizeMs);
      var acc := if w in accs then accs[w] else EMPTY;
      assert acc.Add(t).count == acc.count + 1;
      assert AfterTrade(accs, sizeMs, t)[w] == acc.Add(t);
    }
  }

  /** A trade is in one bar only: of all windows of its key, the one whose bounds hold it. */
  lemma InExactlyOneBar(trades: seq<Trade>, sizeMs: int, t: Trade, w: Window)
    requires sizeMs > 0 && t in trades && ValidTrade(t)
    requires w.key == KeyOf(t.venue, t.symbol) && w.startMs % sizeMs == 0
    ensures t in InWindow(trades, sizeMs, w) <==> w.startMs * 1000 <= t.eventTimeUs < (w.startMs + sizeMs) * 1000
    ensures t in InWindow(trades, sizeMs, w) <==> w == WindowOf(t, sizeMs)
  {
    InWindowMembers(trades, sizeMs, w);
    WindowBoundsIff(t, sizeMs, w.startMs);
  }

  // ---- Replay ----

  lemma InWindowAppend(trades: seq<Trade>, last: Trade, sizeMs: int, w: Window)
    requires sizeMs > 0
    ensures InWindow(trades + [last], sizeMs, w) ==
            if ValidTrade(last) && WindowOf(last, sizeMs) == w then InWindow(trades, sizeMs, w) + [last]
            else InWindow(trades, sizeMs, w)
  {
    assert (trades + [last])[..|trades|] == trades;
  }

  lemma CountAppend(trades: seq<Trade>, last: Trade, t: Trade)
    ensures multiset(trades + [last])[t] == multiset(trades)[t] + if last == t then 1 else 0
  {
  }

  lemma {:induction false} InWindowCounts(trades: seq<Trade>, sizeMs: int, w: Window, t: Trade)
    requires sizeMs > 0
    ensures multiset(InWindow(trades, sizeMs, w))[t] ==
            if ValidTrade(t) && WindowOf(t, sizeMs) == w then multiset(trades)[t] else 0
  {
    if trades != [] {
      hide ValidTrade, WindowOf, InWindow;
      var init, last := trades[..|trades| - 1], trades[|trades| - 1];
      assert trades == init + [last];
      InWindowCounts(init, sizeMs, w, t);
      CountAppend(init, last, t);
      CountAppend(InWindow(init, sizeMs, w), last, t);
      InWindowAppend(init, last, sizeMs, w);
    }
  }

  lemma SameWindows(live: seq<Trade>, replayed: seq<Trade>, sizeMs: int, w: Window)
    requires sizeMs > 0 && multiset(live) == multiset(replayed)
    ensures multiset(InWindow(live, sizeMs, w)) == multiset(InWindow(replayed, sizeMs, w))
  {
    var xs, ys := InWindow(live, sizeMs, w), InWindow(replayed, sizeMs, w);
    forall t ensures multiset(xs)[t] == multiset(ys)[t] {
      InWindowCounts(live, sizeMs, w, t);
      InWindowCounts(replayed, sizeMs, w, t);
    }
  }

  ghost predicate EveryWindowTieFree(trades: seq<Trade>, sizeMs: int)
    requires sizeMs > 0
  {
    forall w :: TieFree(InWindow(trades, sizeMs, w))
  }

  lemma ReplayOfTieFree(live: seq<Trade>, replayed: seq<Trade>, sizeMs: int)
    requires sizeMs > 0 && multiset(live) == multiset(replayed)
    requires EveryWindowTieFree(live, sizeMs)
    ensures AfterAll(live, sizeMs) == AfterAll(replayed, sizeMs)
  {
    hide InWindow, AfterAll, TieFree, Fold;
    forall w
      ensures w in AfterAll(live, sizeMs) <==> w in AfterAll(replayed, sizeMs)
      ensures w in AfterAll(live, sizeMs) ==> AfterAll(live, sizeMs)[w] == AfterAll(replayed, sizeMs)[w]
    {
      var xs, ys := InWindow(live, sizeMs, w), InWindow(replayed, sizeMs, w);
      SameWindows(live, replayed, sizeMs, w);
      FoldPermutes(xs, ys);
      assert |multiset(xs)| == |xs| && |multiset(ys)| == |ys|;
      WindowIsFoldOfItsTrades(live, sizeMs, w);
      WindowIsFoldOfItsTrades(replayed, sizeMs, w);
    }
  }

  /** The trades a window does not hold. */
  function Outside(trades: seq<Trade>, sizeMs: int, w: Window): seq<Trade>
    requires sizeMs > 0
  {
    if trades == [] then []
    else
      var init, t := trades[..|trades| - 1], trades[|trades| - 1];
      Outside(init, sizeMs, w) + if ValidTrade(t) && WindowOf(t, sizeMs) == w then [] else [t]
  }

  lemma BagAppend(xs: seq<Trade>, t: Trade)
    ensures multiset(xs + [t]) == multiset(xs) + multiset{t}
  {
  }

  lemma {:induction false} InsideAndOutside(trades: seq<Trade>, sizeMs: int, w: Window)
    requires sizeMs > 0
    ensures multiset(InWindow(trades, sizeMs, w)) + multiset(Outside(trades, sizeMs, w)) == multiset(trades)
    ensures InWindow(Outside(trades, sizeMs, w), sizeMs, w) == []
  {
    if trades != [] {
      hide ValidTrade, WindowOf, InWindow, Outside;
      var init, t := trades[..|trades| - 1], trades[|trades| - 1];
      var ins, out := InWindow(init, sizeMs, w), Outside(init, sizeMs, w);
      assert trades == init + [t];
      InsideAndOutside(init, sizeMs, w);
      OutsideAppend(init, t, sizeMs, w);
      InWindowAppend(init, t, sizeMs, w);
      InWindowAppend(out, t, sizeMs, w);
      BagAppend(init, t);
      BagAppend(ins, t);
      BagAppend(out, t);
      Rebag(multiset(ins), multiset(out), multiset{t});
    }
  }

  lemma Rebag(a: multiset<Trade>, b: multiset<Trade>, c: multiset<Trade>)
    ensures (a + c) + b == (a + b) + c == a + (b + c)
  {
  }

  lemma OutsideAppend(trades: seq<Trade>, last: Trade, sizeMs: int, w: Window)
    requires sizeMs > 0
    ensures Outside(trades + [last], sizeMs, w) ==
            if ValidTrade(last) && WindowOf(last, sizeMs) == w then Outside(trades, sizeMs, w)
            else Outside(trades, sizeMs, w) + [last]
  {
    assert (trades + [last])[..|trades|] == trades;
  }

  lemma {:induction false} InWindowConcat(xs: seq<Trade>, ys: seq<Trade>, sizeMs: int, w: Window)
    requires sizeMs > 0
    ensures InWindow(xs + ys, sizeMs, w) == InWindow(xs, sizeMs, w) + InWindow(ys, sizeMs, w)
  {
    if ys == [] {
      assert xs + ys == xs;
    } else {
      hide ValidTrade, WindowOf, InWindow;
      var init, t := ys[..|ys| - 1], ys[|ys| - 1];
      assert ys == init + [t] && xs + ys == (xs + init) + [t];
      InWindowConcat(xs, init, sizeMs, w);
      InWindowAppend(init, t, sizeMs, w);
      InWindowAppend(xs + init, t, sizeMs, w);
    }
  }

  lemma {:induction false} AllInside(trades: seq<Trade>, sizeMs: int, w: Window)
    requires sizeMs > 0 && forall t :: t in trades ==> ValidTrade(t) && WindowOf(t, sizeMs) == w
    ensures InWindow(trades, sizeMs, w) == trades
  {
    if trades != [] {
      hide ValidTrade, WindowOf;
      var init, t := trades[..|trades| - 1], trades[|trades| - 1];
      assert trades == init + [t] && t in trades;
      AllInside(init, sizeMs, w);
    }
  }

  ghost predicate ReplayRebuilds(live: seq<Trade>, sizeMs: int)
    requires sizeMs > 0
  {
    forall replayed :: multiset(replayed) == multiset(live) ==> AfterAll(replayed, sizeMs) == AfterAll(live, sizeMs)
  }

  /** One window's trades reordered, then everything else: the window must come out the
      same. */
  lemma ReorderedWindow(live: seq<Trade>, sizeMs: int, w: Window, ys: seq<Trade>)
    requires sizeMs > 0 && ReplayRebuilds(live, sizeMs)
    requires multiset(ys) == multiset(InWindow(live, sizeMs, w))
    ensures Fold(ys) == Fold(InWindow(live, sizeMs, w))
  {
    hide InWindow, AfterAll, Outside, Fold, ValidTrade, WindowOf;
    var xs, out := InWindow(live, sizeMs, w), Outside(live, sizeMs, w);
    var replayed := ys + out;
    InsideAndOutside(live, sizeMs, w);
    assert multiset(replayed) == multiset(live);
    assert AfterAll(replayed, sizeMs) == AfterAll(live, sizeMs);
    InWindowMembers(live, sizeMs, w);
    SameMembers(ys, xs);
    AllInside(ys, sizeMs, w);
    InWindowConcat(ys, out, sizeMs, w);
    assert ys + [] == ys;
    WindowIsFoldOfItsTrades(live, sizeMs, w);
    WindowIsFoldOfItsTrades(replayed, sizeMs, w);
    if xs == [] {
      assert |multiset(ys)| == |ys| && |multiset(xs)| == |xs|;
    }
  }

  /** Replaying the same trades in any order rebuilds the same state, window for window,
      exactly when no window ties at an end with different prices. */
  lemma ReplayRebuildsBars(live: seq<Trade>, sizeMs: int)
    requires sizeMs > 0
    ensures ReplayRebuilds(live, sizeMs) <==> EveryWindowTieFree(live, sizeMs)
  {
    hide InWindow, AfterAll, TieFree, Fold;
    if EveryWindowTieFree(live, sizeMs) {
      forall replayed | multiset(replayed) == multiset(live)
        ensures AfterAll(replayed, sizeMs) == AfterAll(live, sizeMs)
      {
        ReplayOfTieFree(live, replayed, sizeMs);
      }
    }
    if ReplayRebuilds(live, sizeMs) {
      forall w ensures TieFree(InWindow(live, sizeMs, w)) {
        var xs := InWindow(live, sizeMs, w);
        forall ys | multiset(ys) == multiset(xs) ensures Fold(ys) == Fold(xs) {
          ReorderedWindow(live, sizeMs, w, ys);
        }
        OrderIndependentIffTieFree(xs);
      }
    }
  }
}
