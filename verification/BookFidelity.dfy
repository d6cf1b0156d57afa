/** What a trimmed, checkpointed book still guarantees about the book that was
    never trimmed: both are fed the same deltas and compared side by side. */
module BookFidelity {
  import opened Events
  import opened OrderBooks

  // ---- The two books ----

  /** A run of deltas for one key, oldest first. */
  datatype Run = Start | Then(prev: Run, delta: BookDelta)

  /** The book the operator keeps: every delta is applied, then trimmed. */
  function KeptBook(run: Run, maxDepth: int): OrderBook
    requires maxDepth > 0
  {
    match run
    case Start => EMPTY_BOOK
    case Then(prev, d) => KeptBook(prev, maxDepth).Apply(d).Trim(maxDepth)
  }

  /** The book nobody keeps: never trimmed. */
  ghost function FullBook(run: Run): OrderBook {
    match run
    case Start => EMPTY_BOOK
    case Then(prev, d) => FullBook(prev).Apply(d)
  }

  function SideOf(b: OrderBook, ord: Ordering): Side {
    if ord == BID_ORDERING then b.bids else b.asks
  }

  function UpdatesOf(delta: BookDelta, ord: Ordering): seq<Level> {
    if ord == BID_ORDERING then delta.Bids() else delta.Asks()
  }

  lemma {:induction false} ReachableBooksValid(run: Run, maxDepth: int)
    requires maxDepth > 0
    ensures FullBook(run).Valid() && KeptBook(run, maxDepth).Valid()
    ensures |KeptBook(run, maxDepth).bids| <= maxDepth && |KeptBook(run, maxDepth).asks| <= maxDepth
  {
    match run
    case Start =>
    case Then(prev, d) =>
      ReachableBooksValid(prev, maxDepth);
      ApplyTrimKeepsValid(FullBook(prev), d, maxDepth);
      ApplyTrimKeepsValid(KeptBook(prev, maxDepth), d, maxDepth);
  }

  lemma TrimIsTake(b: OrderBook, maxDepth: int, ord: Ordering)
    requires maxDepth > 0
    ensures SideOf(b.Trim(maxDepth), ord) == Take(SideOf(b, ord), maxDepth)
  {
  }

  // ---- The kept book is a sub-map of the full one ----

  ghost predicate SubMap(s: Side, t: Side) {
    forall q :: SizeAt(s, q) != 0.0 ==> SizeAt(s, q) == SizeAt(t, q)
  }

  lemma {:induction false} TakeIsSubMap(side: Side, n: int, q: real)
    ensures SizeAt(Take(side, n), q) != 0.0 ==> SizeAt(Take(side, n), q) == SizeAt(side, q)
  {
    if side != [] && n > 0 {
      TakeIsSubMap(side[1..], n - 1, q);
      assert Take(side, n) == [side[0]] + Take(side[1..], n - 1);
    }
  }

  lemma PatchKeepsSubMap(ord: Ordering, s: Side, t: Side, updates: seq<Level>)
    requires ValidSide(ord, s) && ValidSide(ord, t) && SubMap(s, t)
    ensures SubMap(PatchSide(ord, s, updates), PatchSide(ord, t, updates))
  {
    forall q
      ensures SizeAt(PatchSide(ord, s, updates), q) != 0.0 ==>
                SizeAt(PatchSide(ord, s, updates), q) == SizeAt(PatchSide(ord, t, updates), q)
    {
      PatchSideLastWriteWins(ord, s, updates, q);
      PatchSideLastWriteWins(ord, t, updates, q);
    }
  }

  lemma {:induction false} KeptIsSubMapOfFull(run: Run, maxDepth: int, ord: Ordering)
    requires maxDepth > 0
    ensures SubMap(SideOf(KeptBook(run, maxDepth), ord), SideOf(FullBook(run), ord))
  {
    match run
    case Start =>
    case Then(prev, d) =>
      KeptIsSubMapOfFull(prev, maxDepth, ord);
      ReachableBooksValid(prev, maxDepth);
      var kept, full := KeptBook(prev, maxDepth), FullBook(prev);
      if !d.isSnapshot {
        PatchKeepsSubMap(ord, SideOf(kept, ord), SideOf(full, ord), UpdatesOf(d, ord));
      }
      TrimIsTake(kept.Apply(d), maxDepth, ord);
      forall q { TakeIsSubMap(SideOf(kept.Apply(d), ord), maxDepth, q); }
  }

  lemma SubMapHeadNoBetter(ord: Ordering, s: Side, t: Side)
    requires ValidSide(ord, s) && ValidSide(ord, t) && SubMap(s, t) && s != []
    ensures t != [] && !ord.Before(s[0].price, t[0].price)
  {
    SizeAtIndex(ord, s, 0);
    assert s[0] in s;
    SizeAtPresent(t, s[0].price);
  }

  /** With no bound on deletions at all: trimming never improves a best price and
      never manufactures a crossed book. */
  lemma TrimmingNeverFlatters(run: Run, maxDepth: int)
    requires maxDepth > 0
    ensures var kept, full := KeptBook(run, maxDepth), FullBook(run);
            && (kept.bids != [] ==> full.bids != [] && kept.bids[0].price <= full.bids[0].price)
            && (kept.asks != [] ==> full.asks != [] && kept.asks[0].price >= full.asks[0].price)
            && (kept.IsCrossed() ==> full.IsCrossed())
  {
    ReachableBooksValid(run, maxDepth);
    KeptIsSubMapOfFull(run, maxDepth, BID_ORDERING);
    KeptIsSubMapOfFull(run, maxDepth, ASK_ORDERING);
    var kept, full := KeptBook(run, maxDepth), FullBook(run);
    if kept.bids != [] { SubMapHeadNoBetter(BID_ORDERING, kept.bids, full.bids); }
    if kept.asks != [] { SubMapHeadNoBetter(ASK_ORDERING, kept.asks, full.asks); }
  }

  // ---- How deep the kept book is exact ----

  /** Deletions in one delta that hit a level the side actually holds. */
  function Hits(ord: Ordering, side: Side, updates: seq<Level>): (n: nat)
    ensures n <= |updates|
  {
    if updates == [] then 0
    else
      var init, l := updates[..|updates| - 1], updates[|updates| - 1];
      Hits(ord, side, init) +
      if l.size <= 0.0 && SizeAt(PatchSide(ord, side, init), l.price) != 0.0 then 1 else 0
  }

  function ZeroUpdates(updates: seq<Level>): nat {
    if updates == [] then 0
    else ZeroUpdates(updates[..|updates| - 1]) + if updates[|updates| - 1].size <= 0.0 then 1 else 0
  }

  /** Levels deleted from the kept side since the start or the last snapshot. */
  function Deleted(run: Run, maxDepth: int, ord: Ordering): nat
    requires maxDepth > 0
  {
    match run
    case Start => 0
    case Then(prev, d) =>
      if d.isSnapshot then 0
      else Deleted(prev, maxDepth, ord) + Hits(ord, SideOf(KeptBook(prev, maxDepth), ord), UpdatesOf(d, ord))
  }

  /** Zero-size updates received since the start or the last snapshot. */
  function ZerosSinceSnapshot(run: Run, ord: Ordering): nat {
    match run
    case Start => 0
    case Then(prev, d) =>
      if d.isSnapshot then 0 else ZerosSinceSnapshot(prev, ord) + ZeroUpdates(UpdatesOf(d, ord))
  }

  lemma TakeOfTake(side: Side, m: int, k: int)
    requires k <= m
    ensures Take(Take(side, m), k) == Take(side, k)
  {
  }

  lemma TakeCons(side: Side, k: int)
    requires side != [] && k > 0
    ensures Take(side, k) == [side[0]] + Take(side[1..], k - 1)
  {
  }

  lemma TakeUncons(s: Side, t: Side, k: int)
    requires k > 0 && Take(s, k) == Take(t, k)
    ensures s == [] <==> t == []
    ensures s != [] ==> s[0] == t[0] && Take(s[1..], k - 1) == Take(t[1..], k - 1)
  {
    if s != [] && t != [] {
      TakeCons(s, k);
      TakeCons(t, k);
      assert Take(s[1..], k - 1) == Take(s, k)[1..] && Take(t[1..], k - 1) == Take(t, k)[1..];
    } else if s != [] {
      TakeCons(s, k);
    } else if t != [] {
      TakeCons(t, k);
    }
  }

  lemma {:induction false} UpdatedKeepsTop(ord: Ordering, s: Side, t: Side, price: real, size: real, k: int)
    requires Take(s, k) == Take(t, k)
    ensures Take(Updated(ord, s, price, size), k) == Take(Updated(ord, t, price, size), k)
    decreases |s|
  {
    if k > 0 {
      TakeUncons(s, t, k);
      var us, ut := Updated(ord, s, price, size), Updated(ord, t, price, size);
      TakeCons(us, k);
      TakeCons(ut, k);
      if s != [] {
        if ord.Before(price, s[0].price) {
          assert us[1..] == s && ut[1..] == t;
          TakeOfTake(s, k, k - 1);
          TakeOfTake(t, k, k - 1);
        } else if price == s[0].price {
          assert us[1..] == s[1..] && ut[1..] == t[1..];
        } else {
          UpdatedKeepsTop(ord, s[1..], t[1..], price, size, k - 1);
          assert us[1..] == Updated(ord, s[1..], price, size) && ut[1..] == Updated(ord, t[1..], price, size);
        }
      }
    }
  }

  lemma {:induction false} RemovedKeepsTop(s: Side, t: Side, price: real, k: int)
    requires Take(s, k) == Take(t, k)
    ensures Take(Removed(s, price), k - 1) == Take(Removed(t, price), k - 1)
    ensures (forall l :: l in s ==> l.price != price) ==> Take(Removed(s, price), k) == Take(Removed(t, price), k)
    decreases |s|
  {
    if k > 0 {
      TakeUncons(s, t, k);
      if s != [] && price != s[0].price {
        hide Take;
        RemovedKeepsTop(s[1..], t[1..], price, k - 1);
        RemovedFirst(s, price, k);
        RemovedFirst(t, price, k);
      }
    }
  }

  lemma RemovedFirst(s: Side, price: real, k: int)
    requires s != [] && s[0].price != price && k > 0
    ensures Take(Removed(s, price), k) == [s[0]] + Take(Removed(s[1..], price), k - 1)
    ensures k > 1 ==> Take(Removed(s, price), k - 1) == [s[0]] + Take(Removed(s[1..], price), k - 2)
    ensures k == 1 ==> Take(Removed(s, price), k - 1) == []
  {
    var rs := Removed(s, price);
    assert rs[1..] == Removed(s[1..], price);
    TakeCons(rs, k);
    if k > 1 { TakeCons(rs, k - 1); }
  }

  /** One delta costs at most one exact level per deletion that hits. */
  lemma {:induction false} PatchKeepsTop(ord: Ordering, s: Side, t: Side, updates: seq<Level>, k: int)
    requires ValidSide(ord, s) && Take(s, k) == Take(t, k)
    ensures var h := Hits(ord, s, updates);
            Take(PatchSide(ord, s, updates), k - h) == Take(PatchSide(ord, t, updates), k - h)
  {
    if updates != [] {
      var init, l := updates[..|updates| - 1], updates[|updates| - 1];
      PatchKeepsTop(ord, s, t, init, k);
      PatchSideLastWriteWins(ord, s, init, l.price);
      var ps, pt, k' := PatchSide(ord, s, init), PatchSide(ord, t, init), k - Hits(ord, s, init);
      if l.size > 0.0 {
        UpdatedKeepsTop(ord, ps, pt, l.price, l.size, k');
      } else {
        RemovedKeepsTop(ps, pt, l.price, k');
        if SizeAt(ps, l.price) == 0.0 {
          forall x | x in ps ensures x.price != l.price {
            var i :| 0 <= i < |ps| && ps[i] == x;
            SizeAtIndex(ord, ps, i);
          }
        }
      }
    }
  }

  /** The first k levels of two sides are the same. */
  ghost predicate TopAgrees(s: Side, t: Side, k: int) {
    && (|s| < k || |t| < k ==> |s| == |t|)
    && forall i :: 0 <= i < k && i < |s| && i < |t| ==> s[i] == t[i]
  }

  lemma TopAgreesIsTake(s: Side, t: Side, k: int)
    ensures TopAgrees(s, t, k) <==> Take(s, k) == Take(t, k)
  {
    var a, b := Take(s, k), Take(t, k);
    assert forall i :: 0 <= i < |a| ==> a[i] == s[i];
    assert forall i :: 0 <= i < |b| ==> b[i] == t[i];
    if a == b {
      forall i | 0 <= i < k && i < |s| && i < |t| ensures s[i] == t[i] {
        assert a[i] == b[i];
      }
    }
  }

  /** One delta on one side, before trimming. */
  function SideStep(ord: Ordering, side: Side, delta: BookDelta): Side {
    if delta.isSnapshot then BuildSide(ord, UpdatesOf(delta, ord)) else PatchSide(ord, side, UpdatesOf(delta, ord))
  }

  lemma StepKeepsTop(ord: Ordering, maxDepth: int, d: BookDelta, kept: Side, full: Side, n: nat)
    requires ValidSide(ord, kept) && TopAgrees(kept, full, maxDepth - n)
    ensures var n' := if d.isSnapshot then 0 else n + Hits(ord, kept, UpdatesOf(d, ord));
            TopAgrees(Take(SideStep(ord, kept, d), maxDepth), SideStep(ord, full, d), maxDepth - n')
  {
    hide Take, TopAgrees, PatchSide, BuildSide, Hits, UpdatesOf, ValidSide;
    var n' := if d.isSnapshot then 0 else n + Hits(ord, kept, UpdatesOf(d, ord));
    var kept', full' := SideStep(ord, kept, d), SideStep(ord, full, d);
    TopAgreesIsTake(kept, full, maxDepth - n);
    if !d.isSnapshot {
      PatchKeepsTop(ord, kept, full, UpdatesOf(d, ord), maxDepth - n);
    }
    TakeOfTake(kept', maxDepth, maxDepth - n');
    TopAgreesIsTake(Take(kept', maxDepth), full', maxDepth - n');
  }

  /** The simulation. After any run, the kept side and the never-trimmed side agree
      on their first `maxDepth - n` levels, n being the levels deleted from the kept
      side since the last snapshot. */
  lemma {:induction false} KeptTopIsExact(run: Run, maxDepth: int, ord: Ordering)
    requires maxDepth > 0
    ensures TopAgrees(SideOf(KeptBook(run, maxDepth), ord), SideOf(FullBook(run), ord),
                      maxDepth - Deleted(run, maxDepth, ord))
  {
    hide TopAgrees, Hits, SideStep, Take, SideOf, KeptBook, FullBook;
    match run
    case Start => NothingDiffersYet(maxDepth, ord);
    case Then(prev, d) =>
      KeptTopIsExact(prev, maxDepth, ord);
      SidesAfter(prev, d, maxDepth, ord);
      StepKeepsTop(ord, maxDepth, d, SideOf(KeptBook(prev, maxDepth), ord), SideOf(FullBook(prev), ord),
                   Deleted(prev, maxDepth, ord));
  }

  lemma NothingDiffersYet(maxDepth: int, ord: Ordering)
    requires maxDepth > 0
    ensures TopAgrees(SideOf(KeptBook(Start, maxDepth), ord), SideOf(FullBook(Start), ord), maxDepth)
  {
  }

  lemma SidesAfter(prev: Run, d: BookDelta, maxDepth: int, ord: Ordering)
    requires maxDepth > 0
    ensures ValidSide(ord, SideOf(KeptBook(prev, maxDepth), ord))
    ensures SideOf(KeptBook(Then(prev, d), maxDepth), ord) ==
            Take(SideStep(ord, SideOf(KeptBook(prev, maxDepth), ord), d), maxDepth)
    ensures SideOf(FullBook(Then(prev, d)), ord) == SideStep(ord, SideOf(FullBook(prev), ord), d)
  {
    hide ValidSide, Take, BuildSide, PatchSide;
    ReachableBooksValid(prev, maxDepth);
    TrimIsTake(KeptBook(prev, maxDepth).Apply(d), maxDepth, ord);
  }

  lemma {:induction false} HitsAtMostZeros(ord: Ordering, side: Side, updates: seq<Level>)
    ensures Hits(ord, side, updates) <= ZeroUpdates(updates)
  {
    if updates != [] {
      HitsAtMostZeros(ord, side, updates[..|updates| - 1]);
    }
  }

  lemma {:induction false} DeletedAtMostZeros(run: Run, maxDepth: int, ord: Ordering)
    requires maxDepth > 0
    ensures Deleted(run, maxDepth, ord) <= ZerosSinceSnapshot(run, ord)
  {
    match run
    case Start =>
    case Then(prev, d) =>
      DeletedAtMostZeros(prev, maxDepth, ord);
      HitsAtMostZeros(ord, SideOf(KeptBook(prev, maxDepth), ord), UpdatesOf(d, ord));
  }

  /** The same bound counted from the input alone. */
  lemma KeptTopIsExactByZeros(run: Run, maxDepth: int, ord: Ordering, d: nat)
    requires maxDepth > 0 && ZerosSinceSnapshot(run, ord) <= d
    ensures TopAgrees(SideOf(KeptBook(run, maxDepth), ord), SideOf(FullBook(run), ord), maxDepth - d)
  {
    hide *;
    DeletedAtMostZeros(run, maxDepth, ord);
    KeptTopIsExactUpTo(run, maxDepth, ord, d);
  }

  lemma KeptTopIsExactUpTo(run: Run, maxDepth: int, ord: Ordering, d: nat)
    requires maxDepth > 0 && Deleted(run, maxDepth, ord) <= d
    ensures TopAgrees(SideOf(KeptBook(run, maxDepth), ord), SideOf(FullBook(run), ord), maxDepth - d)
  {
    hide *;
    KeptTopIsExact(run, maxDepth, ord);
    TopAgreesLess(SideOf(KeptBook(run, maxDepth), ord), SideOf(FullBook(run), ord),
                  maxDepth - Deleted(run, maxDepth, ord), maxDepth - d);
  }

  lemma TopAgreesLess(s: Side, t: Side, k: int, m: int)
    requires TopAgrees(s, t, k) && m <= k
    ensures TopAgrees(s, t, m)
  {
  }

  ghost predicate SameTop(b: OrderBook, c: OrderBook) {
    b.BestBid() == c.BestBid() && b.BestAsk() == c.BestAsk() && b.IsCrossed() == c.IsCrossed()
  }

  ghost predicate SameQuote(b: OrderBook, c: OrderBook, imbalanceDepth: int)
    requires imbalanceDepth > 0
  {
    forall venue, symbol, emitTimeUs ::
      b.ToQuote(venue, symbol, emitTimeUs, imbalanceDepth) == c.ToQuote(venue, symbol, emitTimeUs, imbalanceDepth)
  }

  lemma QuoteOfAgreeingBooks(b: OrderBook, c: OrderBook, k: int, n: int)
    requires k > 0 && n > 0 && b.lastEventTimeUs == c.lastEventTimeUs
    requires TopAgrees(b.bids, c.bids, k) && TopAgrees(b.asks, c.asks, k)
    ensures SameTop(b, c)
    ensures n <= k ==> SameQuote(b, c, n)
  {
    assert b.bids == [] <==> c.bids == [];
    assert b.asks == [] <==> c.asks == [];
    if n <= k {
      TopAgreesIsTake(b.bids, c.bids, n);
      TopAgreesIsTake(b.asks, c.asks, n);
    }
  }

  /** Best prices and the crossed flag are exact while fewer than `maxDepth` levels
      per side were deleted; the whole quote is exact while the imbalance depth
      still fits in what is left. */
  lemma QuoteIsExact(run: Run, maxDepth: int, imbalanceDepth: int, d: nat)
    requires imbalanceDepth > 0 && d < maxDepth
    requires Deleted(run, maxDepth, BID_ORDERING) <= d && Deleted(run, maxDepth, ASK_ORDERING) <= d
    ensures SameTop(KeptBook(run, maxDepth), FullBook(run))
    ensures d <= maxDepth - imbalanceDepth ==> SameQuote(KeptBook(run, maxDepth), FullBook(run), imbalanceDepth)
  {
    hide KeptBook, FullBook, Deleted, TopAgrees, SameTop, SameQuote;
    KeptTopIsExactUpTo(run, maxDepth, BID_ORDERING, d);
    KeptTopIsExactUpTo(run, maxDepth, ASK_ORDERING, d);
    LastEventTimeIsExact(run, maxDepth);
    QuoteOfAgreeingBooks(KeptBook(run, maxDepth), FullBook(run), maxDepth - d, imbalanceDepth);
  }

  lemma LastEventTimeIsExact(run: Run, maxDepth: int)
    requires maxDepth > 0
    ensures KeptBook(run, maxDepth).lastEventTimeUs == FullBook(run).lastEventTimeUs
    ensures KeptBook(run, maxDepth).lastSequence == FullBook(run).lastSequence
  {
  }

  // ---- The bound is tight ----

  function Ladder(n: nat): (side: Side)
    ensures |side| == n
  {
    seq(n, i => Level((i + 1) as real, 1.0))
  }

  function ClearBest(d: nat): (updates: seq<Level>)
    ensures |updates| == d
  {
    seq(d, i => Level((i + 1) as real, 0.0))
  }

  function Prices(levels: seq<Level>): seq<real> {
    seq(|levels|, i requires 0 <= i < |levels| => levels[i].price)
  }

  function Sizes(levels: seq<Level>): seq<real> {
    seq(|levels|, i requires 0 <= i < |levels| => levels[i].size)
  }

  function DeltaOf(isSnapshot: bool, bids: seq<Level>, asks: seq<Level>): (d: BookDelta)
    ensures d.isSnapshot == isSnapshot && d.Asks() == asks && d.Bids() == bids
  {
    var d := BookDelta("v", "s", isSnapshot, Prices(bids), Sizes(bids), Prices(asks), Sizes(asks), 1, 1, 1);
    assert d.Asks() == asks && d.Bids() == bids;
    d
  }

  lemma {:induction false} ClearingALadder(n: nat, d: nat)
    requires d <= n
    ensures PatchSide(ASK_ORDERING, Ladder(n), ClearBest(d)) == Ladder(n)[d..]
    ensures Hits(ASK_ORDERING, Ladder(n), ClearBest(d)) == d
    ensures ZeroUpdates(ClearBest(d)) == d
  {
    if d > 0 {
      ClearingALadder(n, d - 1);
      assert ClearBest(d)[..d - 1] == ClearBest(d - 1);
      assert Ladder(n)[d - 1..][1..] == Ladder(n)[d..];
    }
  }

  const ONE_BID: Side := [Level(0.5, 1.0)]

  /** A snapshot one level too deep, then d deletions at the touch. */
  function TooDeep(maxDepth: nat, d: nat): Run {
    Then(Then(Start, DeltaOf(true, ONE_BID, Ladder(maxDepth + 1))), DeltaOf(false, [], ClearBest(d)))
  }

  /** A snapshot of valid sides and one update. */
  lemma LoadThenPatch(maxDepth: nat, load: BookDelta, patch: BookDelta, ord: Ordering)
    requires maxDepth > 0 && load.isSnapshot && !patch.isSnapshot && ValidSide(ord, UpdatesOf(load, ord))
    ensures var run, side := Then(Then(Start, load), patch), UpdatesOf(load, ord);
            var updates := UpdatesOf(patch, ord);
            && SideOf(KeptBook(run, maxDepth), ord) == Take(PatchSide(ord, Take(side, maxDepth), updates), maxDepth)
            && SideOf(FullBook(run), ord) == PatchSide(ord, side, updates)
            && Deleted(run, maxDepth, ord) == Hits(ord, Take(side, maxDepth), updates)
            && ZerosSinceSnapshot(run, ord) == ZeroUpdates(updates)
  {
    hide PatchSide, BuildSide, Hits, ZeroUpdates, Take, KeptBook, FullBook, SideOf, UpdatesOf;
    var one := Then(Start, load);
    SidesAfter(Start, load, maxDepth, ord);
    BuildSideOfValid(ord, UpdatesOf(load, ord));
    SidesAfter(one, patch, maxDepth, ord);
  }

  lemma TooDeepBooks(maxDepth: nat, d: nat)
    requires 0 < d <= maxDepth
    ensures var run := TooDeep(maxDepth, d);
            && KeptBook(run, maxDepth).asks == Ladder(maxDepth)[d..]
            && FullBook(run).asks == Ladder(maxDepth + 1)[d..]
            && KeptBook(run, maxDepth).bids == FullBook(run).bids == ONE_BID
            && Deleted(run, maxDepth, ASK_ORDERING) == ZerosSinceSnapshot(run, ASK_ORDERING) == d
            && Deleted(run, maxDepth, BID_ORDERING) == ZerosSinceSnapshot(run, BID_ORDERING) == 0
  {
    hide PatchSide, Hits, ZeroUpdates, KeptBook, FullBook, Deleted, ZerosSinceSnapshot;
    var load, clear := DeltaOf(true, ONE_BID, Ladder(maxDepth + 1)), DeltaOf(false, [], ClearBest(d));
    assert Take(Ladder(maxDepth + 1), maxDepth) == Ladder(maxDepth);
    assert Take(ONE_BID, maxDepth) == ONE_BID;
    NothingPatched(ONE_BID);
    LoadThenPatch(maxDepth, load, clear, ASK_ORDERING);
    LoadThenPatch(maxDepth, load, clear, BID_ORDERING);
    ClearingALadder(maxDepth, d);
    ClearingALadder(maxDepth + 1, d);
  }

  lemma NothingPatched(side: Side)
    ensures PatchSide(BID_ORDERING, side, []) == side && Hits(BID_ORDERING, side, []) == 0 == ZeroUpdates([])
  {
  }

  /** The kept side is wrong one level further down than the bound promises, for every
      depth and every number of deletions. */
  lemma DepthBoundIsTight(maxDepth: nat, d: nat)
    requires 0 < d <= maxDepth
    ensures var run := TooDeep(maxDepth, d);
            && Deleted(run, maxDepth, ASK_ORDERING) == ZerosSinceSnapshot(run, ASK_ORDERING) == d
            && !TopAgrees(KeptBook(run, maxDepth).asks, FullBook(run).asks, maxDepth - d + 1)
  {
    hide KeptBook, FullBook, Deleted, ZerosSinceSnapshot, TooDeep;
    TooDeepBooks(maxDepth, d);
  }

  lemma {:induction false} UnitSizes(side: Side)
    requires forall i :: 0 <= i < |side| ==> side[i].size == 1.0
    ensures SumSizes(side) == |side| as real
  {
    if side != [] { UnitSizes(side[1..]); }
  }

  lemma UnitImbalance(b: OrderBook, depth: int)
    requires depth > 0 && b.bids == ONE_BID && forall i :: 0 <= i < |b.asks| ==> b.asks[i].size == 1.0
    ensures var asks := Min(depth, |b.asks|) as real; b.Imbalance(depth) == (1.0 - asks) / (1.0 + asks)
  {
    assert Take(b.bids, depth) == ONE_BID;
    UnitSizes(ONE_BID);
    UnitSizes(Take(b.asks, depth));
  }

  lemma ImbalancesDiffer(a: real)
    requires a >= 0.0
    ensures (1.0 - a) / (1.0 + a) != (1.0 - (a + 1.0)) / (1.0 + (a + 1.0))
  {
    var x, y := (1.0 - a) / (1.0 + a), -a / (2.0 + a);
    assert x * (1.0 + a) == 1.0 - a && y * (2.0 + a) == -a;
    assert x * (2.0 + a) == x * (1.0 + a) + x;
  }

  /** With one deletion more than the quote's bound allows, some book is quoted wrongly;
      and with as many as there are levels, its best price is. */
  lemma QuoteBoundIsTight(maxDepth: nat, imbalanceDepth: nat, d: nat)
    requires 0 < imbalanceDepth && 0 < d <= maxDepth && d > maxDepth - imbalanceDepth
    ensures var run := TooDeep(maxDepth, d);
            && Deleted(run, maxDepth, ASK_ORDERING) == d && Deleted(run, maxDepth, BID_ORDERING) == 0
            && !SameQuote(KeptBook(run, maxDepth), FullBook(run), imbalanceDepth)
            && (d == maxDepth ==> !SameTop(KeptBook(run, maxDepth), FullBook(run)))
  {
    hide KeptBook, FullBook, Deleted, ZerosSinceSnapshot, TooDeep, OrderBook.Imbalance;
    TooDeepBooks(maxDepth, d);
    var run := TooDeep(maxDepth, d);
    var kept, full := KeptBook(run, maxDepth), FullBook(run);
    var a := maxDepth - d;
    assert |kept.asks| == a && |full.asks| == a + 1;
    UnitImbalance(kept, imbalanceDepth);
    UnitImbalance(full, imbalanceDepth);
    ImbalancesDiffer(a as real);
    assert kept.ToQuote("v", "s", 0, imbalanceDepth) != full.ToQuote("v", "s", 0, imbalanceDepth);
  }
}
