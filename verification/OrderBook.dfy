/** A price-level book: two sides, deltas in, quotes and checkpoints out.

    A side is the in-order listing of the sorted map the source keeps: strictly
    ordered prices, best price first. Read as a map, a side sends a price to its
    size, and an absent price to 0.0 (`SizeAt`). */
module OrderBooks {
  import opened Events
  import opened Arithmetic

  datatype Ordering = Descending | Ascending {
    predicate Before(p: real, q: real) {
      if Descending? then p > q else p < q
    }
  }

  const BID_ORDERING: Ordering := Descending
  const ASK_ORDERING: Ordering := Ascending

  type Side = seq<Level>

  // ---- One side as a sorted map ----

  /** Size held at a price; 0.0 when the price is absent. */
  function SizeAt(side: Side, price: real): real {
    if side == [] then 0.0
    else if side[0].price == price then side[0].size
    else SizeAt(side[1..], price)
  }

  /** `TreeMap.updated`. */
  function Updated(ord: Ordering, side: Side, price: real, size: real): Side {
    if side == [] then [Level(price, size)]
    else if ord.Before(price, side[0].price) then [Level(price, size)] + side
    else if price == side[0].price then [Level(price, size)] + side[1..]
    else [side[0]] + Updated(ord, side[1..], price, size)
  }

  /** `TreeMap - price`. */
  function Removed(side: Side, price: real): Side {
    if side == [] then []
    else if price == side[0].price then side[1..]
    else [side[0]] + Removed(side[1..], price)
  }

  /** The first n levels, or all of them when there are fewer. */
  function Take(side: Side, n: int): Side {
    if n <= 0 then [] else if |side| <= n then side else side[..n]
  }

  ghost predicate Sorted(ord: Ordering, side: Side) {
    forall i, j :: 0 <= i < j < |side| ==> ord.Before(side[i].price, side[j].price)
  }

  ghost predicate Positive(side: Side) {
    forall l :: l in side ==> l.size > 0.0
  }

  /** What every stored side looks like: strictly ordered prices, positive sizes. */
  ghost predicate ValidSide(ord: Ordering, side: Side) {
    Sorted(ord, side) && Positive(side)
  }

  lemma {:induction false} UpdatedElements(ord: Ordering, side: Side, price: real, size: real)
    ensures forall l :: l in Updated(ord, side, price, size) ==> l == Level(price, size) || l in side
  {
    if side != [] {
      UpdatedElements(ord, side[1..], price, size);
    }
  }

  lemma ConsSorted(ord: Ordering, head: Level, rest: Side)
    requires Sorted(ord, rest)
    requires forall l :: l in rest ==> ord.Before(head.price, l.price)
    ensures Sorted(ord, [head] + rest)
  {
    var s := [head] + rest;
    forall i, j | 0 <= i < j < |s| ensures ord.Before(s[i].price, s[j].price) {
      assert s[j] == rest[j - 1] && rest[j - 1] in rest;
      if i > 0 {
        assert s[i] == rest[i - 1];
      }
    }
  }

  lemma UnconsSorted(ord: Ordering, side: Side)
    requires Sorted(ord, side) && side != []
    ensures Sorted(ord, side[1..])
    ensures forall l :: l in side[1..] ==> ord.Before(side[0].price, l.price)
  {
  }

  lemma {:induction false} UpdatedSorted(ord: Ordering, side: Side, price: real, size: real)
    requires Sorted(ord, side)
    ensures Sorted(ord, Updated(ord, side, price, size))
  {
    if side != [] {
      UnconsSorted(ord, side);
      if ord.Before(price, side[0].price) {
        ConsSorted(ord, Level(price, size), side);
      } else if price == side[0].price {
        ConsSorted(ord, Level(price, size), side[1..]);
      } else {
        UpdatedSorted(ord, side[1..], price, size);
        UpdatedElements(ord, side[1..], price, size);
        ConsSorted(ord, side[0], Updated(ord, side[1..], price, size));
      }
    }
  }

  lemma {:induction false} UpdatedIsMapUpdate(ord: Ordering, side: Side, price: real, size: real, q: real)
    ensures SizeAt(Updated(ord, side, price, size), q) == if q == price then size else SizeAt(side, q)
  {
    if side != [] {
      UpdatedIsMapUpdate(ord, side[1..], price, size, q);
    }
  }

  lemma {:induction false} AbsentBeyond(side: Side, price: real)
    requires forall i :: 0 <= i < |side| ==> side[i].price != price
    ensures SizeAt(side, price) == 0.0
  {
    if side != [] {
      AbsentBeyond(side[1..], price);
    }
  }

  lemma {:induction false} SizeAtIndex(ord: Ordering, side: Side, i: nat)
    requires Sorted(ord, side) && i < |side|
    ensures SizeAt(side, side[i].price) == side[i].size
  {
    if i > 0 {
      assert ord.Before(side[0].price, side[i].price);
      SizeAtIndex(ord, side[1..], i - 1);
    }
  }

  lemma {:induction false} RemovedSorted(ord: Ordering, side: Side, price: real)
    requires Sorted(ord, side)
    ensures Sorted(ord, Removed(side, price))
    ensures forall l :: l in Removed(side, price) ==> l in side
  {
    if side != [] {
      UnconsSorted(ord, side);
      if price != side[0].price {
        RemovedSorted(ord, side[1..], price);
        ConsSorted(ord, side[0], Removed(side[1..], price));
      }
    }
  }

  lemma {:induction false} RemovedIsMapRemove(ord: Ordering, side: Side, price: real, q: real)
    requires Sorted(ord, side)
    ensures SizeAt(Removed(side, price), q) == if q == price then 0.0 else SizeAt(side, q)
  {
    if side != [] {
      UnconsSorted(ord, side);
      RemovedIsMapRemove(ord, side[1..], price, q);
      if price == side[0].price {
        AbsentBeyond(side[1..], price);
      }
    }
  }

  lemma {:induction false} SizeAtPresent(side: Side, price: real)
    requires SizeAt(side, price) != 0.0
    ensures Level(price, SizeAt(side, price)) in side
  {
    if side[0].price != price {
      SizeAtPresent(side[1..], price);
    }
  }

  /** A valid side is determined by the map it lists. */
  lemma {:induction false} SideExtensional(ord: Ordering, s: Side, t: Side)
    requires ValidSide(ord, s) && ValidSide(ord, t)
    requires forall q :: SizeAt(s, q) == SizeAt(t, q)
    ensures s == t
  {
    if s == [] || t == [] {
      if s != [] { SizeAtIndex(ord, s, 0); assert false; }
      if t != [] { SizeAtIndex(ord, t, 0); assert false; }
    } else {
      var p, q := s[0].price, t[0].price;
      SizeAtIndex(ord, s, 0);
      SizeAtIndex(ord, t, 0);
      SizeAtPresent(t, p);
      SizeAtPresent(s, q);
      assert p == q;
      forall r ensures SizeAt(s[1..], r) == SizeAt(t[1..], r) {
        if r == p {
          AbsentBeyond(s[1..], p);
          AbsentBeyond(t[1..], p);
        } else {
          assert SizeAt(s, r) == SizeAt(t, r);
        }
      }
      SideExtensional(ord, s[1..], t[1..]);
      assert s == [s[0]] + s[1..] && t == [t[0]] + t[1..];
    }
  }

  // ---- Building and patching a side ----

  function BuildStep(ord: Ordering, acc: Side, lvl: Level): Side {
    if lvl.size > 0.0 then Updated(ord, acc, lvl.price, lvl.size) else acc
  }

  /** Folds a snapshot's levels into a side; a non-positive size is skipped. */
  function BuildSide(ord: Ordering, levels: seq<Level>): Side {
    if levels == [] then []
    else BuildStep(ord, BuildSide(ord, levels[..|levels| - 1]), levels[|levels| - 1])
  }

  function PatchStep(ord: Ordering, acc: Side, lvl: Level): Side {
    if lvl.size > 0.0 then Updated(ord, acc, lvl.price, lvl.size) else Removed(acc, lvl.price)
  }

  /** Folds an update's levels into a side; a non-positive size removes the level. */
  function PatchSide(ord: Ordering, side: Side, updates: seq<Level>): Side {
    if updates == [] then side
    else PatchStep(ord, PatchSide(ord, side, updates[..|updates| - 1]), updates[|updates| - 1])
  }

  /** Size of the last update that touches a price. */
  ghost function LastWrite(updates: seq<Level>, price: real): Option<real> {
    if updates == [] then None
    else
      var l := updates[|updates| - 1];
      if l.price == price then Some(l.size) else LastWrite(updates[..|updates| - 1], price)
  }

  /** Size of the last update that touches a price with a positive size. */
  ghost function LastPositive(updates: seq<Level>, price: real): real {
    if updates == [] then 0.0
    else
      var l := updates[|updates| - 1];
      if l.price == price && l.size > 0.0 then l.size else LastPositive(updates[..|updates| - 1], price)
  }

  /** A patch is last-write-wins per price, and a last write of zero deletes. */
  lemma {:induction false} PatchSideLastWriteWins(ord: Ordering, side: Side, updates: seq<Level>, q: real)
    requires ValidSide(ord, side)
    ensures ValidSide(ord, PatchSide(ord, side, updates))
    ensures SizeAt(PatchSide(ord, side, updates), q) ==
            match LastWrite(updates, q)
            case None => SizeAt(side, q)
            case Some(z) => if z > 0.0 then z else 0.0
  {
    if updates != [] {
      var init, l := updates[..|updates| - 1], updates[|updates| - 1];
      PatchSideLastWriteWins(ord, side, init, q);
      var mid := PatchSide(ord, side, init);
      if l.size > 0.0 {
        UpdatedIsMapUpdate(ord, mid, l.price, l.size, q);
        UpdatedSorted(ord, mid, l.price, l.size);
        UpdatedElements(ord, mid, l.price, l.size);
      } else {
        RemovedIsMapRemove(ord, mid, l.price, q);
        RemovedSorted(ord, mid, l.price);
      }
    }
  }

  /** A snapshot keeps, per price, the last positive size; zeros are ignored. */
  lemma {:induction false} BuildSideLastPositiveWins(ord: Ordering, levels: seq<Level>, q: real)
    ensures ValidSide(ord, BuildSide(ord, levels))
    ensures SizeAt(BuildSide(ord, levels), q) == LastPositive(levels, q)
  {
    if levels != [] {
      var init, l := levels[..|levels| - 1], levels[|levels| - 1];
      BuildSideLastPositiveWins(ord, init, q);
      UpdatedIsMapUpdate(ord, BuildSide(ord, init), l.price, l.size, q);
      UpdatedSorted(ord, BuildSide(ord, init), l.price, l.size);
      UpdatedElements(ord, BuildSide(ord, init), l.price, l.size);
    }
  }

  /** A price is revived by a snapshot when its last write is a zero that follows
      a positive write. */
  ghost predicate Revives(levels: seq<Level>, price: real) {
    LastWrite(levels, price).Some? && LastWrite(levels, price).value <= 0.0 && LastPositive(levels, price) > 0.0
  }

  lemma {:induction false} LastWriteMeetsLastPositive(levels: seq<Level>, q: real)
    ensures LastPositive(levels, q) >= 0.0
    ensures LastWrite(levels, q).None? ==> LastPositive(levels, q) == 0.0
    ensures LastWrite(levels, q).Some? && LastWrite(levels, q).value > 0.0
            ==> LastPositive(levels, q) == LastWrite(levels, q).value
  {
    if levels != [] {
      LastWriteMeetsLastPositive(levels[..|levels| - 1], q);
    }
  }

  /** Loading levels as a snapshot and patching them onto an empty side agree
      exactly when no price ends on a zero after a positive size. */
  lemma BuildEqualsPatchIff(ord: Ordering, levels: seq<Level>)
    ensures BuildSide(ord, levels) == PatchSide(ord, [], levels) <==> forall q :: !Revives(levels, q)
  {
    var b, p := BuildSide(ord, levels), PatchSide(ord, [], levels);
    forall q
      ensures SizeAt(b, q) == LastPositive(levels, q)
      ensures ValidSide(ord, b) && ValidSide(ord, p)
      ensures SizeAt(p, q) == SizeAt(b, q) <==> !Revives(levels, q)
    {
      BuildSideLastPositiveWins(ord, levels, q);
      PatchSideLastWriteWins(ord, [], levels, q);
      LastWriteMeetsLastPositive(levels, q);
    }
    assert ValidSide(ord, b) && ValidSide(ord, p) by {
      BuildSideLastPositiveWins(ord, levels, 0.0);
      PatchSideLastWriteWins(ord, [], levels, 0.0);
    }
    if forall q :: !Revives(levels, q) {
      SideExtensional(ord, b, p);
    }
  }

  // ---- The book ----

  datatype OrderBook = OrderBook(bids: Side, asks: Side, lastSequence: int, lastEventTimeUs: int) {

    function BestBid(): Option<Level> { if bids == [] then None else Some(bids[0]) }

    function BestAsk(): Option<Level> { if asks == [] then None else Some(asks[0]) }

    predicate IsCrossed() {
      bids != [] && asks != [] && bids[0].price >= asks[0].price
    }

    function Imbalance(depth: int): real
      requires depth > 0
    {
      var bidQty := SumSizes(Take(bids, depth));
      var askQty := SumSizes(Take(asks, depth));
      var total := bidQty + askQty;
      if total <= 0.0 then 0.0 else (bidQty - askQty) / total
    }

    function Apply(delta: BookDelta): OrderBook {
      if delta.isSnapshot then
        OrderBook(
          BuildSide(BID_ORDERING, delta.Bids()), BuildSide(ASK_ORDERING, delta.Asks()),
          delta.sequence, delta.eventTimeUs)
      else
        OrderBook(
          PatchSide(BID_ORDERING, bids, delta.Bids()), PatchSide(ASK_ORDERING, asks, delta.Asks()),
          delta.sequence, delta.eventTimeUs)
    }

    function Trim(maxDepth: int): OrderBook
      requires maxDepth > 0
    {
      if |bids| <= maxDepth && |asks| <= maxDepth then this
      else this.(bids := Take(bids, maxDepth), asks := Take(asks, maxDepth))
    }

    function ToQuote(venue: string, symbol: string, emitTimeUs: int, imbalanceDepth: int): Option<Quote>
      requires imbalanceDepth > 0
    {
      if bids == [] || asks == [] then None
      else Some(Quote(
        venue, symbol, bids[0].price, bids[0].size, asks[0].price, asks[0].size,
        Imbalance(imbalanceDepth), lastEventTimeUs, emitTimeUs))
    }

    function ToSnapshot(): BookSnapshot {
      BookSnapshot(
        seq(|bids|, i requires 0 <= i < |bids| => bids[i].price),
        seq(|bids|, i requires 0 <= i < |bids| => bids[i].size),
        seq(|asks|, i requires 0 <= i < |asks| => asks[i].price),
        seq(|asks|, i requires 0 <= i < |asks| => asks[i].size),
        lastSequence, lastEventTimeUs)
    }

    ghost predicate Valid() {
      ValidSide(BID_ORDERING, bids) && ValidSide(ASK_ORDERING, asks)
    }
  }

  /** The checkpointed form: parallel arrays in book order. */
  datatype BookSnapshot = BookSnapshot(
    bidPrices: seq<real>, bidSizes: seq<real>,
    askPrices: seq<real>, askSizes: seq<real>,
    lastSequence: int, lastEventTimeUs: int)

  const EMPTY_BOOK := OrderBook([], [], -1, 0)

  function SumSizes(side: Side): real {
    if side == [] then 0.0 else side[0].size + SumSizes(side[1..])
  }

  function FromSnapshot(s: BookSnapshot): OrderBook {
    OrderBook(
      BuildSide(BID_ORDERING, Zip(s.bidPrices, s.bidSizes)),
      BuildSide(ASK_ORDERING, Zip(s.askPrices, s.askSizes)),
      s.lastSequence, s.lastEventTimeUs)
  }

  /** The loop that rebuilds a side from the checkpointed arrays. */
  method BuildSideArrays(prices: seq<real>, sizes: seq<real>, ord: Ordering) returns (acc: Side)
    ensures acc == BuildSide(ord, Zip(prices, sizes))
    ensures ValidSide(ord, acc)
    ensures forall q :: SizeAt(acc, q) == LastPositive(Zip(prices, sizes), q)
  {
    acc := [];
    var i := 0;
    ghost var levels := Zip(prices, sizes);
    while i < |prices| && i < |sizes|
      invariant 0 <= i <= |levels|
      invariant acc == BuildSide(ord, levels[..i])
    {
      if sizes[i] > 0.0 {
        acc := Updated(ord, acc, prices[i], sizes[i]);
      }
      i := i + 1;
      assert levels[..i][..i - 1] == levels[..i - 1];
    }
    assert levels[..i] == levels;
    forall q ensures SizeAt(acc, q) == LastPositive(levels, q) && ValidSide(ord, acc) {
      BuildSideLastPositiveWins(ord, levels, q);
    }
    assert ValidSide(ord, acc) by { BuildSideLastPositiveWins(ord, levels, 0.0); }
  }

  method RebuildBook(s: BookSnapshot) returns (book: OrderBook)
    ensures book == FromSnapshot(s)
  {
    var bids := BuildSideArrays(s.bidPrices, s.bidSizes, BID_ORDERING);
    var asks := BuildSideArrays(s.askPrices, s.askSizes, ASK_ORDERING);
    book := OrderBook(bids, asks, s.lastSequence, s.lastEventTimeUs);
  }

  // ---- Checkpoint round trip ----

  lemma {:induction false} UpdatedAppends(ord: Ordering, side: Side, price: real, size: real)
    requires forall i :: 0 <= i < |side| ==> ord.Before(side[i].price, price)
    ensures Updated(ord, side, price, size) == side + [Level(price, size)]
  {
    if side != [] {
      UpdatedAppends(ord, side[1..], price, size);
      assert side + [Level(price, size)] == [side[0]] + (side[1..] + [Level(price, size)]);
    }
  }

  lemma {:induction false} BuildSideOfValid(ord: Ordering, side: Side)
    requires ValidSide(ord, side)
    ensures BuildSide(ord, side) == side
  {
    if side != [] {
      var init := side[..|side| - 1];
      BuildSideOfValid(ord, init);
      UpdatedAppends(ord, init, side[|side| - 1].price, side[|side| - 1].size);
      assert side == init + [side[|side| - 1]];
    }
  }

  lemma SnapshotRoundTrip(b: OrderBook)
    ensures FromSnapshot(b.ToSnapshot()) == b <==> b.Valid()
  {
    var s := b.ToSnapshot();
    assert Zip(s.bidPrices, s.bidSizes) == b.bids;
    assert Zip(s.askPrices, s.askSizes) == b.asks;
    BuildSideLastPositiveWins(BID_ORDERING, b.bids, 0.0);
    BuildSideLastPositiveWins(ASK_ORDERING, b.asks, 0.0);
    if b.Valid() {
      BuildSideOfValid(BID_ORDERING, b.bids);
      BuildSideOfValid(ASK_ORDERING, b.asks);
    }
  }

  // ---- What applying and trimming keep ----

  lemma ApplyTrimKeepsValid(b: OrderBook, delta: BookDelta, maxDepth: int)
    requires b.Valid() && maxDepth > 0
    ensures b.Apply(delta).Valid() && b.Apply(delta).Trim(maxDepth).Valid()
    ensures |b.Apply(delta).Trim(maxDepth).bids| <= maxDepth && |b.Apply(delta).Trim(maxDepth).asks| <= maxDepth
  {
    if delta.isSnapshot {
      BuildSideLastPositiveWins(BID_ORDERING, delta.Bids(), 0.0);
      BuildSideLastPositiveWins(ASK_ORDERING, delta.Asks(), 0.0);
    } else {
      PatchSideLastWriteWins(BID_ORDERING, b.bids, delta.Bids(), 0.0);
      PatchSideLastWriteWins(ASK_ORDERING, b.asks, delta.Asks(), 0.0);
    }
  }

  // ---- Imbalance ----

  /** Size resting in the first k levels, the kth added last. */
  ghost function Resting(side: Side, k: nat): real {
    if k == 0 then 0.0 else Resting(side, k - 1) + if k <= |side| then side[k - 1].size else 0.0
  }

  lemma {:induction false} SumSizesAppend(side: Side, l: Level)
    ensures SumSizes(side + [l]) == SumSizes(side) + l.size
  {
    if side != [] {
      SumSizesAppend(side[1..], l);
      assert (side + [l])[1..] == side[1..] + [l];
    }
  }

  lemma {:induction false} TakenIsResting(side: Side, k: nat)
    ensures SumSizes(Take(side, k)) == Resting(side, k)
  {
    if k > 0 {
      TakenIsResting(side, k - 1);
      if k <= |side| {
        assert Take(side, k) == Take(side, k - 1) + [side[k - 1]];
        SumSizesAppend(Take(side, k - 1), side[k - 1]);
      } else {
        assert Take(side, k) == Take(side, k - 1);
      }
    }
  }

  /** The imbalance splits the sizes resting within the depth, level by level; at depth
      one it splits the two sizes at the touch. */
  lemma ImbalanceSplitsSizes(b: OrderBook, depth: nat)
    requires b.Valid() && depth > 0
    ensures b.Imbalance(depth) * (Resting(b.bids, depth) + Resting(b.asks, depth)) ==
            Resting(b.bids, depth) - Resting(b.asks, depth)
    ensures b.bids != [] && b.asks != [] ==>
              b.Imbalance(1) * (b.bids[0].size + b.asks[0].size) == b.bids[0].size - b.asks[0].size
  {
    SplitsAt(b, depth);
    SplitsAt(b, 1);
    assert Resting(b.bids, 0) == 0.0 && Resting(b.asks, 0) == 0.0;
  }

  lemma SplitsAt(b: OrderBook, depth: nat)
    requires b.Valid() && depth > 0
    ensures b.Imbalance(depth) * (Resting(b.bids, depth) + Resting(b.asks, depth)) ==
            Resting(b.bids, depth) - Resting(b.asks, depth)
  {
    hide SumSizes, Resting, Take;
    TakenIsResting(b.bids, depth);
    TakenIsResting(b.asks, depth);
    TakenPositive(b.bids, depth);
    TakenPositive(b.asks, depth);
    RatioTimes(Resting(b.bids, depth), Resting(b.asks, depth));
  }

  lemma TakenPositive(side: Side, k: nat)
    requires Positive(side)
    ensures SumSizes(Take(side, k)) >= 0.0
  {
    SumSizesPositive(Take(side, k));
  }

  lemma RatioTimes(x: real, y: real)
    requires x >= 0.0 && y >= 0.0
    ensures (if x + y <= 0.0 then 0.0 else (x - y) / (x + y)) * (x + y) == x - y
  {
  }

  lemma {:induction false} SumSizesPositive(side: Side)
    requires Positive(side)
    ensures SumSizes(side) >= 0.0
    ensures SumSizes(side) == 0.0 <==> side == []
  {
    if side != [] {
      SumSizesPositive(side[1..]);
    }
  }

  /** The ratio is strictly inside (-1, 1) exactly when both sides hold something;
      a one-sided book reads as fully one-sided and only the empty book reads 0.
      (The comment on the source's method says 0 for any empty side; its code and
      its tests do not.) */
  lemma ImbalanceRange(b: OrderBook, depth: int)
    requires b.Valid() && depth > 0
    ensures -1.0 < b.Imbalance(depth) < 1.0 <==> (b.bids == [] <==> b.asks == [])
    ensures b.Imbalance(depth) == 1.0 <==> b.bids != [] && b.asks == []
    ensures b.Imbalance(depth) == -1.0 <==> b.bids == [] && b.asks != []
    ensures b.bids == [] && b.asks == [] ==> b.Imbalance(depth) == 0.0
    ensures b.Imbalance(depth) > 0.0 <==> Resting(b.bids, depth) > Resting(b.asks, depth)
    ensures OrderBook(b.asks, b.bids, b.lastSequence, b.lastEventTimeUs).Imbalance(depth) == -b.Imbalance(depth)
  {
    var x, y := SumSizes(Take(b.bids, depth)), SumSizes(Take(b.asks, depth));
    SumSizesPositive(Take(b.bids, depth));
    SumSizesPositive(Take(b.asks, depth));
    TakenIsResting(b.bids, depth);
    TakenIsResting(b.asks, depth);
    assert Take(b.bids, depth) == [] <==> b.bids == [];
    assert Take(b.asks, depth) == [] <==> b.asks == [];
    if x + y > 0.0 {
      RatioRange(x, y);
    }
  }

  lemma RatioRange(x: real, y: real)
    requires x >= 0.0 && y >= 0.0 && x + y > 0.0
    ensures -1.0 <= (x - y) / (x + y) <= 1.0
    ensures (x - y) / (x + y) == 1.0 <==> y == 0.0
    ensures (x - y) / (x + y) == -1.0 <==> x == 0.0
    ensures (x - y) / (x + y) > 0.0 <==> x > y
    ensures (y - x) / (y + x) == -((x - y) / (x + y))
  {
    var t := x + y;
    assert y + x == t && y - x == -(x - y);
    Quotient(x - y, t, 1.0);
    Quotient(x - y, t, -1.0);
    Quotient(x - y, t, 0.0);
  }

  // ---- What a book and its quote say, price by price ----

  /** A snapshot replaces both sides, an update patches them, whatever was there. */
  lemma AppliedSizes(b: OrderBook, delta: BookDelta, q: real)
    requires b.Valid()
    ensures var after := b.Apply(delta);
            && after.lastSequence == delta.sequence && after.lastEventTimeUs == delta.eventTimeUs
            && SizeAt(after.bids, q) == AppliedSize(b.bids, delta.isSnapshot, delta.Bids(), q)
            && SizeAt(after.asks, q) == AppliedSize(b.asks, delta.isSnapshot, delta.Asks(), q)
  {
    if delta.isSnapshot {
      BuildSideLastPositiveWins(BID_ORDERING, delta.Bids(), q);
      BuildSideLastPositiveWins(ASK_ORDERING, delta.Asks(), q);
    } else {
      PatchSideLastWriteWins(BID_ORDERING, b.bids, delta.Bids(), q);
      PatchSideLastWriteWins(ASK_ORDERING, b.asks, delta.Asks(), q);
    }
  }

  ghost function AppliedSize(side: Side, isSnapshot: bool, levels: seq<Level>, q: real): real {
    if isSnapshot then LastPositive(levels, q)
    else
      match LastWrite(levels, q)
      case None => SizeAt(side, q)
      case Some(z) => if z > 0.0 then z else 0.0
  }

  /** A quote exists exactly for a two-sided book; it reads the highest bid and the
      lowest ask with their sizes, and its imbalance splits the top quantities. */
  lemma QuoteReadsTheTouch(b: OrderBook, venue: string, symbol: string, emitTimeUs: int, depth: int, p: real)
    requires b.Valid() && depth > 0
    ensures var quote := b.ToQuote(venue, symbol, emitTimeUs, depth);
            && (quote.Some? <==> b.bids != [] && b.asks != [])
            && (quote.Some? ==>
                  var q := quote.value;
                  var bidQty, askQty := Resting(b.bids, depth), Resting(b.asks, depth);
                  && q.venue == venue && q.symbol == symbol
                  && q.eventTimeUs == b.lastEventTimeUs && q.emitTimeUs == emitTimeUs
                  && SizeAt(b.bids, q.bidPrice) == q.bidSize > 0.0
                  && SizeAt(b.asks, q.askPrice) == q.askSize > 0.0
                  && (SizeAt(b.bids, p) != 0.0 ==> p <= q.bidPrice)
                  && (SizeAt(b.asks, p) != 0.0 ==> p >= q.askPrice)
                  && q.imbalance * (bidQty + askQty) == bidQty - askQty)
  {
    if b.bids != [] && b.asks != [] {
      BestOnSide(BID_ORDERING, b.bids, p);
      BestOnSide(ASK_ORDERING, b.asks, p);
      SplitsAt(b, depth);
    }
  }

  lemma BestOnSide(ord: Ordering, side: Side, p: real)
    requires ValidSide(ord, side) && side != []
    ensures SizeAt(side, side[0].price) == side[0].size > 0.0
    ensures SizeAt(side, p) != 0.0 ==> !ord.Before(p, side[0].price)
  {
    assert side[0] in side;
    if SizeAt(side, p) != 0.0 {
      SizeAtPresent(side, p);
    }
  }
}
