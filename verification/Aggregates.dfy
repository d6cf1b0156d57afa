/** Windowed trade statistics as a fold, with a merge for partial aggregates. */
module Aggregates {
  import opened Events
  import opened Arithmetic

  const DOUBLE_MAX: real := 1.7976931348623157e308
  const LONG_MAX: int := 0x7fff_ffff_ffff_ffff

  datatype TradeAggregate = TradeAggregate(
    open: real, high: real, low: real, close: real,
    volume: real, notional: real, count: nat,
    firstEventTimeUs: int, lastEventTimeUs: int)
  {
    function Add(t: Trade): TradeAggregate {
      if count == 0 then
        TradeAggregate(t.price, t.price, t.price, t.price, t.size, t.Notional(), 1, t.eventTimeUs, t.eventTimeUs)
      else
        TradeAggregate(
          if t.eventTimeUs < firstEventTimeUs then t.price else open,
          MaxReal(high, t.price), MinReal(low, t.price),
          if t.eventTimeUs >= lastEventTimeUs then t.price else close,
          volume + t.size, notional + t.Notional(), count + 1,
          Min(firstEventTimeUs, t.eventTimeUs), Max(lastEventTimeUs, t.eventTimeUs))
    }

    function Merge(other: TradeAggregate): TradeAggregate {
      if count == 0 then other
      else if other.count == 0 then this
      else
        TradeAggregate(
          if other.firstEventTimeUs < firstEventTimeUs then other.open else open,
          MaxReal(high, other.high), MinReal(low, other.low),
          if other.lastEventTimeUs > lastEventTimeUs then other.close else close,
          volume + other.volume, notional + other.notional, count + other.count,
          Min(firstEventTimeUs, other.firstEventTimeUs), Max(lastEventTimeUs, other.lastEventTimeUs))
    }

    function Vwap(): Double {
      if volume <= 0.0 then NotANumber else Finite(notional / volume)
    }
  }

  const EMPTY := TradeAggregate(0.0, -DOUBLE_MAX, DOUBLE_MAX, 0.0, 0.0, 0.0, 0, LONG_MAX, -LONG_MAX - 1)

  function Fold(trades: seq<Trade>): TradeAggregate {
    if trades == [] then EMPTY else Fold(trades[..|trades| - 1]).Add(trades[|trades| - 1])
  }

  // ---- Merge as an algebra ----

  /** No condition on ties is needed for associativity, nor for the empty aggregate
      being neutral on both sides. */
  lemma MergeIsAMonoid(a: TradeAggregate, b: TradeAggregate, c: TradeAggregate)
    ensures a.Merge(b).Merge(c) == a.Merge(b.Merge(c))
    ensures EMPTY.Merge(a) == a
    ensures a.Merge(EMPTY) == a <==> (a.count == 0 ==> a == EMPTY)
  {
  }

  /** Merge commutes exactly when the two sides do not tie at an end with different
      prices there. (Its comment claims commutativity outright.) */
  lemma MergeCommutesIff(a: TradeAggregate, b: TradeAggregate)
    requires a.count > 0 && b.count > 0
    ensures a.Merge(b) == b.Merge(a) <==>
            && (a.firstEventTimeUs == b.firstEventTimeUs ==> a.open == b.open)
            && (a.lastEventTimeUs == b.lastEventTimeUs ==> a.close == b.close)
  {
  }

  // ---- What a fold says about its trades ----

  function Volume(trades: seq<Trade>): real {
    if trades == [] then 0.0 else Volume(trades[..|trades| - 1]) + trades[|trades| - 1].size
  }

  function NotionalOf(trades: seq<Trade>): real {
    if trades == [] then 0.0 else NotionalOf(trades[..|trades| - 1]) + trades[|trades| - 1].Notional()
  }

  ghost predicate IsOpen(trades: seq<Trade>, a: TradeAggregate) {
    && (forall t :: t in trades ==> a.firstEventTimeUs <= t.eventTimeUs)
    && exists t :: t in trades && t.eventTimeUs == a.firstEventTimeUs && t.price == a.open
  }

  ghost predicate IsClose(trades: seq<Trade>, a: TradeAggregate) {
    && (forall t :: t in trades ==> t.eventTimeUs <= a.lastEventTimeUs)
    && exists t :: t in trades && t.eventTimeUs == a.lastEventTimeUs && t.price == a.close
  }

  ghost predicate IsRange(trades: seq<Trade>, a: TradeAggregate) {
    && (forall t :: t in trades ==> a.low <= t.price <= a.high)
    && (exists t :: t in trades && t.price == a.low)
    && (exists t :: t in trades && t.price == a.high)
  }

  /** An aggregate describes a batch of trades, without reference to their order. */
  ghost predicate Describes(a: TradeAggregate, trades: seq<Trade>) {
    && a.count == |trades|
    && a.volume == Volume(trades) && a.notional == NotionalOf(trades)
    && IsOpen(trades, a) && IsClose(trades, a) && IsRange(trades, a)
  }

  lemma AddDescribes(a: TradeAggregate, trades: seq<Trade>, t: Trade)
    requires trades != [] && Describes(a, trades)
    ensures Describes(a.Add(t), trades + [t])
  {
    var all, b := trades + [t], a.Add(t);
    assert all[..|trades|] == trades;
    assert t in all && forall x :: x in trades ==> x in all;
    assert forall x :: x in all ==> x in trades || x == t;
    var first :| first in trades && first.eventTimeUs == a.firstEventTimeUs && first.price == a.open;
    var last :| last in trades && last.eventTimeUs == a.lastEventTimeUs && last.price == a.close;
    var lo :| lo in trades && lo.price == a.low;
    var hi :| hi in trades && hi.price == a.high;
    assert IsOpen(all, b) by { var w := if t.eventTimeUs < a.firstEventTimeUs then t else first; assert w in all; }
    assert IsClose(all, b) by { var w := if t.eventTimeUs >= a.lastEventTimeUs then t else last; assert w in all; }
    assert IsRange(all, b) by {
      var l := if t.price < a.low then t else lo;
      var h := if t.price > a.high then t else hi;
      assert l in all && l.price == b.low && h in all && h.price == b.high;
    }
  }

  lemma {:induction false} FoldDescribes(trades: seq<Trade>)
    requires trades != []
    ensures Describes(Fold(trades), trades)
  {
    var init, t := trades[..|trades| - 1], trades[|trades| - 1];
    assert trades == init + [t];
    if init == [] {
      assert trades == [t] && trades[0] == t && trades[..0] == [];
      assert t in trades;
    } else {
      FoldDescribes(init);
      AddDescribes(Fold(init), init, t);
    }
  }

  // ---- Splitting a fold ----

  lemma FoldAppend(xs: seq<Trade>, t: Trade)
    ensures Fold(xs + [t]) == Fold(xs).Add(t)
    ensures Volume(xs + [t]) == Volume(xs) + t.size && NotionalOf(xs + [t]) == NotionalOf(xs) + t.Notional()
  {
    assert (xs + [t])[..|xs|] == xs;
  }

  lemma {:induction false} FoldCount(xs: seq<Trade>)
    ensures Fold(xs).count == |xs|
  {
    if xs != [] { FoldCount(xs[..|xs| - 1]); }
  }

  /** The merge that lets the right side win a tie at the close, as `Add` does. */
  function MergeLate(a: TradeAggregate, b: TradeAggregate): TradeAggregate {
    a.Merge(b).(close := if b.lastEventTimeUs >= a.lastEventTimeUs then b.close else a.close)
  }

  lemma MergeLateAdd(a: TradeAggregate, b: TradeAggregate, t: Trade)
    requires a.count > 0
    ensures b.count > 0 ==> MergeLate(a, b.Add(t)) == MergeLate(a, b).Add(t)
    ensures MergeLate(a, EMPTY.Add(t)) == a.Add(t)
  {
  }

  lemma {:induction false} FoldConcatExact(xs: seq<Trade>, ys: seq<Trade>)
    requires xs != [] && ys != []
    ensures Fold(xs + ys) == MergeLate(Fold(xs), Fold(ys))
  {
    var init, t := ys[..|ys| - 1], ys[|ys| - 1];
    assert ys == init + [t] && xs + ys == (xs + init) + [t];
    FoldAppend(init, t);
    FoldAppend(xs + init, t);
    FoldCount(xs);
    FoldCount(init);
    MergeLateAdd(Fold(xs), Fold(init), t);
    if init == [] {
      assert xs + init == xs;
    } else {
      FoldConcatExact(xs, init);
    }
  }

  /** Folding in parts and merging equals folding in one pass exactly when the parts
      do not tie on their latest event time with different closes: `add` lets the later
      arrival win such a tie, `merge` the left part. */
  lemma FoldConcatIff(xs: seq<Trade>, ys: seq<Trade>)
    ensures Fold(xs + ys) == Fold(xs).Merge(Fold(ys)) <==>
            (xs == [] || ys == [] || Fold(xs).lastEventTimeUs != Fold(ys).lastEventTimeUs
             || Fold(xs).close == Fold(ys).close)
  {
    if xs == [] {
      assert xs + ys == ys;
    } else if ys == [] {
      assert xs + ys == xs;
      FoldCount(xs);
    } else {
      FoldCount(xs);
      FoldCount(ys);
      FoldConcatExact(xs, ys);
    }
  }

  // ---- Order independence ----

  /** All trades that share the earliest event time agree on price, and likewise all
      that share the latest. */
  ghost predicate TieFree(trades: seq<Trade>) {
    && (forall s, t :: s in trades && t in trades && s.eventTimeUs == t.eventTimeUs && IsEarliest(trades, t)
          ==> s.price == t.price)
    && (forall s, t :: s in trades && t in trades && s.eventTimeUs == t.eventTimeUs && IsLatest(trades, t)
          ==> s.price == t.price)
  }

  ghost predicate IsEarliest(trades: seq<Trade>, t: Trade) {
    forall x :: x in trades ==> t.eventTimeUs <= x.eventTimeUs
  }

  ghost predicate IsLatest(trades: seq<Trade>, t: Trade) {
    forall x :: x in trades ==> x.eventTimeUs <= t.eventTimeUs
  }

  lemma {:induction false} SumsSplit(xs: seq<Trade>, i: nat)
    requires i < |xs|
    ensures Volume(xs) == Volume(xs[..i] + xs[i + 1..]) + xs[i].size
    ensures NotionalOf(xs) == NotionalOf(xs[..i] + xs[i + 1..]) + xs[i].Notional()
    decreases |xs|
  {
    var n := |xs| - 1;
    var rest := xs[..i] + xs[i + 1..];
    if i == n {
      assert rest == xs[..n];
    } else {
      SumsSplit(xs[..n], i);
      assert rest[..n - 1] == xs[..n][..i] + xs[..n][i + 1..] && rest[n - 1] == xs[n];
    }
  }

  lemma TakeOut(xs: seq<Trade>, ys: seq<Trade>, t: Trade) returns (i: nat)
    requires multiset(xs + [t]) == multiset(ys)
    ensures i < |ys| && ys[i] == t && multiset(ys[..i] + ys[i + 1..]) == multiset(xs)
  {
    assert (xs + [t])[|xs|] == t;
    assert t in multiset(ys);
    i :| 0 <= i < |ys| && ys[i] == t;
    assert ys == ys[..i] + [t] + ys[i + 1..];
    assert multiset(ys[..i] + ys[i + 1..]) == multiset(ys) - multiset{t};
  }

  lemma {:induction false} SumsPermute(xs: seq<Trade>, ys: seq<Trade>)
    requires multiset(xs) == multiset(ys)
    ensures |xs| == |ys| && Volume(xs) == Volume(ys) && NotionalOf(xs) == NotionalOf(ys)
  {
    assert |multiset(xs)| == |xs| && |multiset(ys)| == |ys|;
    if xs != [] {
      hide Volume, NotionalOf;
      var init, t := xs[..|xs| - 1], xs[|xs| - 1];
      assert xs == init + [t];
      var i := TakeOut(init, ys, t);
      SumsPermute(init, ys[..i] + ys[i + 1..]);
      SumsSplit(ys, i);
      FoldAppend(init, t);
    }
  }

  lemma SameMembers(xs: seq<Trade>, ys: seq<Trade>)
    requires multiset(xs) == multiset(ys)
    ensures forall t :: t in xs <==> t in ys
  {
    forall t ensures t in xs <==> t in ys {
      assert t in multiset(xs) <==> t in xs;
      assert t in multiset(ys) <==> t in ys;
    }
  }

  lemma DescriptionUnique(a: TradeAggregate, b: TradeAggregate, xs: seq<Trade>, ys: seq<Trade>)
    requires Describes(a, xs) && Describes(b, ys) && TieFree(xs)
    requires |xs| == |ys| && Volume(xs) == Volume(ys) && NotionalOf(xs) == NotionalOf(ys)
    requires forall t :: t in xs <==> t in ys
    ensures a == b
  {
    hide IsOpen, IsClose, IsRange, Volume, NotionalOf, TieFree;
    OpenUnique(a, b, xs, ys);
    CloseUnique(a, b, xs, ys);
    RangeUnique(a, b, xs, ys);
  }

  lemma OpenUnique(a: TradeAggregate, b: TradeAggregate, xs: seq<Trade>, ys: seq<Trade>)
    requires IsOpen(xs, a) && IsOpen(ys, b) && TieFree(xs) && forall t :: t in xs <==> t in ys
    ensures a.firstEventTimeUs == b.firstEventTimeUs && a.open == b.open
  {
    var f :| f in xs && f.eventTimeUs == a.firstEventTimeUs && f.price == a.open;
    var g :| g in ys && g.eventTimeUs == b.firstEventTimeUs && g.price == b.open;
    assert g in xs && f in ys && IsEarliest(xs, f);
  }

  lemma CloseUnique(a: TradeAggregate, b: TradeAggregate, xs: seq<Trade>, ys: seq<Trade>)
    requires IsClose(xs, a) && IsClose(ys, b) && TieFree(xs) && forall t :: t in xs <==> t in ys
    ensures a.lastEventTimeUs == b.lastEventTimeUs && a.close == b.close
  {
    var l :| l in xs && l.eventTimeUs == a.lastEventTimeUs && l.price == a.close;
    var m :| m in ys && m.eventTimeUs == b.lastEventTimeUs && m.price == b.close;
    assert m in xs && l in ys && IsLatest(xs, l);
  }

  lemma RangeUnique(a: TradeAggregate, b: TradeAggregate, xs: seq<Trade>, ys: seq<Trade>)
    requires IsRange(xs, a) && IsRange(ys, b) && forall t :: t in xs <==> t in ys
    ensures a.low == b.low && a.high == b.high
  {
    var lo :| lo in xs && lo.price == a.low;
    var lo' :| lo' in ys && lo'.price == b.low;
    assert lo in ys && lo' in xs;
    var hi :| hi in xs && hi.price == a.high;
    var hi' :| hi' in ys && hi'.price == b.high;
    assert hi in ys && hi' in xs;
  }

  lemma FoldPermutes(xs: seq<Trade>, ys: seq<Trade>)
    requires multiset(xs) == multiset(ys) && TieFree(xs)
    ensures Fold(xs) == Fold(ys)
  {
    SumsPermute(xs, ys);
    if xs != [] {
      SameMembers(xs, ys);
      FoldDescribes(xs);
      FoldDescribes(ys);
      DescriptionUnique(Fold(xs), Fold(ys), xs, ys);
    }
  }

  lemma {:induction false} OpenIsFirstArrival(xs: seq<Trade>)
    requires xs != [] && IsEarliest(xs, xs[0])
    ensures Fold(xs).count > 0 && Fold(xs).open == xs[0].price && Fold(xs).firstEventTimeUs == xs[0].eventTimeUs
  {
    if |xs| > 1 {
      var init := xs[..|xs| - 1];
      assert IsEarliest(init, init[0]);
      OpenIsFirstArrival(init);
      assert xs[|xs| - 1] in xs;
    } else {
      assert xs[..0] == [];
    }
  }

  lemma CloseIsLastArrival(xs: seq<Trade>, t: Trade)
    requires IsLatest(xs, t)
    ensures Fold(xs + [t]).close == t.price
  {
    assert (xs + [t])[..|xs|] == xs;
    if xs != [] {
      FoldDescribes(xs);
      var l :| l in xs && l.eventTimeUs == Fold(xs).lastEventTimeUs && l.price == Fold(xs).close;
    }
  }

  ghost predicate OrderIndependent(xs: seq<Trade>) {
    forall ys :: multiset(ys) == multiset(xs) ==> Fold(ys) == Fold(xs)
  }

  lemma FrontAndBack(xs: seq<Trade>, t: Trade) returns (rest: seq<Trade>)
    requires t in xs
    ensures multiset([t] + rest) == multiset(xs) == multiset(rest + [t])
    ensures forall x :: x in [t] + rest <==> x in xs
    ensures forall x :: x in rest ==> x in xs
  {
    var i :| 0 <= i < |xs| && xs[i] == t;
    rest := xs[..i] + xs[i + 1..];
    assert xs == xs[..i] + [t] + xs[i + 1..];
    SameMembers([t] + rest, xs);
  }

  /** The fold ignores arrival order altogether exactly when the batch is tie-free:
      with a price disagreement at either end, some two orders disagree. */
  lemma OrderIndependentIffTieFree(xs: seq<Trade>)
    ensures OrderIndependent(xs) <==> TieFree(xs)
  {
    if TieFree(xs) {
      forall ys | multiset(ys) == multiset(xs) ensures Fold(ys) == Fold(xs) { FoldPermutes(xs, ys); }
    }
    if OrderIndependent(xs) {
      EndsDecidePrices(xs);
    }
  }

  lemma EndsDecidePrices(xs: seq<Trade>)
    requires OrderIndependent(xs)
    ensures TieFree(xs)
  {
    hide Fold;
    forall t | t in xs ensures IsEarliest(xs, t) ==> t.price == Fold(xs).open {
      if IsEarliest(xs, t) { EarliestIsOpen(xs, t); }
    }
    forall t | t in xs ensures IsLatest(xs, t) ==> t.price == Fold(xs).close {
      if IsLatest(xs, t) { LatestIsClose(xs, t); }
    }
    forall s, t | s in xs && t in xs && s.eventTimeUs == t.eventTimeUs
      ensures IsEarliest(xs, t) ==> IsEarliest(xs, s)
      ensures IsLatest(xs, t) ==> IsLatest(xs, s)
    {
    }
  }

  lemma EarliestIsOpen(xs: seq<Trade>, t: Trade)
    requires OrderIndependent(xs) && t in xs && IsEarliest(xs, t)
    ensures t.price == Fold(xs).open
  {
    hide Fold;
    var rest := FrontAndBack(xs, t);
    assert IsEarliest([t] + rest, ([t] + rest)[0]);
    OpenIsFirstArrival([t] + rest);
  }

  lemma LatestIsClose(xs: seq<Trade>, t: Trade)
    requires OrderIndependent(xs) && t in xs && IsLatest(xs, t)
    ensures t.price == Fold(xs).close
  {
    hide Fold;
    var rest := FrontAndBack(xs, t);
    CloseIsLastArrival(rest, t);
  }

  // ---- Merging in any order ----

  /** Partial folds, merged in any shape. */
  datatype Merging = Part(trades: seq<Trade>) | Both(left: Merging, right: Merging) {
    function Trades(): seq<Trade> {
      match this
      case Part(trades) => trades
      case Both(l, r) => l.Trades() + r.Trades()
    }

    function Merged(): TradeAggregate {
      match this
      case Part(trades) => Fold(trades)
      case Both(l, r) => l.Merged().Merge(r.Merged())
    }
  }

  lemma {:induction false} SumsConcat(xs: seq<Trade>, ys: seq<Trade>)
    ensures Volume(xs + ys) == Volume(xs) + Volume(ys) && NotionalOf(xs + ys) == NotionalOf(xs) + NotionalOf(ys)
  {
    if ys == [] {
      assert xs + ys == xs;
    } else {
      var init, t := ys[..|ys| - 1], ys[|ys| - 1];
      SumsConcat(xs, init);
      assert ys == init + [t] && xs + ys == (xs + init) + [t];
      hide Volume, NotionalOf;
      FoldAppend(init, t);
      FoldAppend(xs + init, t);
    }
  }

  lemma MergeEnds(a: TradeAggregate, xs: seq<Trade>, b: TradeAggregate, ys: seq<Trade>)
    requires a.count > 0 && b.count > 0
    requires IsOpen(xs, a) && IsOpen(ys, b) && IsClose(xs, a) && IsClose(ys, b)
    ensures IsOpen(xs + ys, a.Merge(b)) && IsClose(xs + ys, a.Merge(b))
  {
    var m, all := a.Merge(b), xs + ys;
    assert forall t :: t in all <==> t in xs || t in ys;
    var f :| f in xs && f.eventTimeUs == a.firstEventTimeUs && f.price == a.open;
    var g :| g in ys && g.eventTimeUs == b.firstEventTimeUs && g.price == b.open;
    var first := if b.firstEventTimeUs < a.firstEventTimeUs then g else f;
    assert first in all && first.eventTimeUs == m.firstEventTimeUs && first.price == m.open;
    var k :| k in xs && k.eventTimeUs == a.lastEventTimeUs && k.price == a.close;
    var l :| l in ys && l.eventTimeUs == b.lastEventTimeUs && l.price == b.close;
    var last := if b.lastEventTimeUs > a.lastEventTimeUs then l else k;
    assert last in all && last.eventTimeUs == m.lastEventTimeUs && last.price == m.close;
  }

  lemma MergeRange(a: TradeAggregate, xs: seq<Trade>, b: TradeAggregate, ys: seq<Trade>)
    requires a.count > 0 && b.count > 0 && IsRange(xs, a) && IsRange(ys, b)
    ensures IsRange(xs + ys, a.Merge(b))
  {
    var m, all := a.Merge(b), xs + ys;
    assert forall t :: t in all <==> t in xs || t in ys;
    var lo :| lo in xs && lo.price == a.low;
    var lo' :| lo' in ys && lo'.price == b.low;
    assert lo in all && lo' in all && (lo.price == m.low || lo'.price == m.low);
    var hi :| hi in xs && hi.price == a.high;
    var hi' :| hi' in ys && hi'.price == b.high;
    assert hi in all && hi' in all && (hi.price == m.high || hi'.price == m.high);
  }

  /** Merging two descriptions describes both batches together, ties or not. */
  lemma MergeDescribes(a: TradeAggregate, xs: seq<Trade>, b: TradeAggregate, ys: seq<Trade>)
    requires xs != [] && ys != [] && Describes(a, xs) && Describes(b, ys)
    ensures Describes(a.Merge(b), xs + ys)
  {
    hide IsOpen, IsClose, IsRange, Volume, NotionalOf;
    MergeEnds(a, xs, b, ys);
    MergeRange(a, xs, b, ys);
    SumsConcat(xs, ys);
  }

  lemma {:induction false} MergingDescribes(m: Merging)
    ensures m.Trades() == [] ==> m.Merged() == EMPTY
    ensures m.Trades() != [] ==> Describes(m.Merged(), m.Trades()) && m.Merged().count > 0
  {
    match m
    case Part(trades) => if trades != [] { FoldDescribes(trades); }
    case Both(l, r) =>
      hide IsOpen, IsClose, IsRange, Volume, NotionalOf;
      MergingDescribes(l);
      MergingDescribes(r);
      MergeIsAMonoid(l.Merged(), r.Merged(), EMPTY);
      MergeIsAMonoid(r.Merged(), l.Merged(), EMPTY);
      if l.Trades() == [] {
        assert m.Trades() == r.Trades();
      } else if r.Trades() == [] {
        assert m.Trades() == l.Trades();
      } else {
        MergeDescribes(l.Merged(), l.Trades(), r.Merged(), r.Trades());
      }
  }

  ghost predicate MergesTo(xs: seq<Trade>, a: TradeAggregate) {
    forall m: Merging :: multiset(m.Trades()) == multiset(xs) ==> m.Merged() == a
  }

  /** However the trades of a batch are reordered, split into parts, folded and merged,
      the result is the batch's own fold exactly when the batch is tie-free. */
  lemma AnyMergingIffTieFree(xs: seq<Trade>)
    ensures MergesTo(xs, Fold(xs)) <==> TieFree(xs)
  {
    hide Fold, TieFree;
    if TieFree(xs) {
      forall m: Merging | multiset(m.Trades()) == multiset(xs) ensures m.Merged() == Fold(xs) {
        MergingOfTieFree(m, xs);
      }
    }
    if MergesTo(xs, Fold(xs)) {
      forall ys | multiset(ys) == multiset(xs) ensures Fold(ys) == Fold(xs) {
        PartIsFold(ys);
        assert Part(ys).Merged() == Fold(xs);
      }
      OrderIndependentIffTieFree(xs);
    }
  }

  lemma PartIsFold(ys: seq<Trade>)
    ensures Part(ys).Trades() == ys && Part(ys).Merged() == Fold(ys)
  {
  }

  lemma MergingOfTieFree(m: Merging, xs: seq<Trade>)
    requires multiset(m.Trades()) == multiset(xs) && TieFree(xs)
    ensures m.Merged() == Fold(xs)
  {
    hide Describes, TieFree;
    MergingDescribes(m);
    SumsPermute(xs, m.Trades());
    if xs == [] {
      FoldOfNothing();
    } else {
      FoldDescribes(xs);
      SameMembers(xs, m.Trades());
      DescriptionUnique(Fold(xs), m.Merged(), xs, m.Trades());
    }
  }

  lemma FoldOfNothing()
    ensures Fold([]) == EMPTY
  {
  }

  // ---- Prices stay in range ----

  /** low * volume <= notional <= high * volume for trades of non-negative size. */
  lemma {:induction false} NotionalBounds(xs: seq<Trade>, low: real, high: real)
    requires forall t :: t in xs ==> t.size >= 0.0 && low <= t.price <= high
    ensures Volume(xs) >= 0.0
    ensures low * Volume(xs) <= NotionalOf(xs) <= high * Volume(xs)
  {
    hide *;
    if xs == [] {
      NothingTraded(low, high);
    } else {
      var init, t := xs[..|xs| - 1], xs[|xs| - 1];
      assert xs == init + [t];
      assert forall x :: x in init ==> x in xs;
      NotionalBounds(init, low, high);
      VolumeAppend(init, t);
      BoundStep(low, high, Volume(init), NotionalOf(init), t.price, t.size);
    }
  }

  lemma NothingTraded(low: real, high: real)
    ensures Volume([]) == 0.0 && NotionalOf([]) == low * Volume([]) == high * Volume([])
  {
  }

  lemma VolumeAppend(xs: seq<Trade>, t: Trade)
    ensures Volume(xs + [t]) == Volume(xs) + t.size && NotionalOf(xs + [t]) == NotionalOf(xs) + t.price * t.size
  {
    FoldAppend(xs, t);
  }

  lemma BoundStep(low: real, high: real, v: real, n: real, p: real, size: real)
    requires low * v <= n <= high * v && low <= p <= high && size >= 0.0
    ensures low * (v + size) <= n + p * size <= high * (v + size)
  {
    assert (p - low) * size >= 0.0 && (high - p) * size >= 0.0;
    assert low * (v + size) == low * v + low * size;
    assert high * (v + size) == high * v + high * size;
  }

  lemma QuotientBounds(low: real, high: real, v: real, n: real)
    requires v > 0.0 && low * v <= n <= high * v
    ensures low <= n / v <= high
  {
    assert (n / v) * v == n;
    ScaleCompare(low, n / v, v);
    ScaleCompare(n / v, high, v);
  }

  /** Every aggregate of at least one trade of non-negative size has its open, close
      and (when anything traded) volume-weighted price between its low and its high. */
  lemma PricesInRange(xs: seq<Trade>)
    requires xs != [] && forall t :: t in xs ==> t.size >= 0.0
    ensures var a := Fold(xs);
            && a.low <= a.open <= a.high && a.low <= a.close <= a.high
            && (a.Vwap().Finite? <==> a.volume > 0.0)
            && (a.Vwap().Finite? ==>
                  a.low <= a.Vwap().value <= a.high && a.Vwap().value * Volume(xs) == NotionalOf(xs))
  {
    hide Volume, NotionalOf, Fold;
    var a := Fold(xs);
    FoldDescribes(xs);
    NotionalBounds(xs, a.low, a.high);
    if a.volume > 0.0 {
      QuotientBounds(a.low, a.high, a.volume, a.notional);
      assert a.Vwap().value * a.volume == a.notional;
    }
  }
}
