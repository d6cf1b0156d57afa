/** Given one quote per venue, which pairs of venues disagree on the price by more than
    their own history makes plausible. */
module Divergence {
  import opened Events
  import opened Rolling
  import opened Arithmetic

  datatype Config = Config(
    minDivergenceBps: real, minZscore: real, baselineWindow: nat, minObservations: int, maxQuoteAgeUs: int)

  datatype DivergenceEvent = DivergenceEvent(
    symbol: string, venueA: string, venueB: string, priceA: real, priceB: real,
    divergenceBps: real, zscore: ZScore, windowStartUs: int, eventTimeUs: int)

  type Pair = (string, string)

  type Baselines = map<Pair, Baseline>

  function Get(b: Baselines, pair: Pair): Option<Baseline> {
    if pair in b then Some(b[pair]) else None
  }

  function Observed(prior: Option<Baseline>, bps: Double, window: nat): Baseline
    requires window > 1
  {
    prior.GetOr(EmptyStats(window)).Add(bps)
  }

  // ---- Venue order ----

  /** Lexicographic order on code units. */
  predicate Less(a: string, b: string) {
    if a == "" then b != ""
    else if b == "" then false
    else a[0] < b[0] || (a[0] == b[0] && Less(a[1..], b[1..]))
  }

  /** Where two strings first differ decides; a proper prefix comes first. */
  ghost predicate DiffersAt(a: string, b: string, i: nat) {
    && i <= |a| && i < |b| && a[..i] == b[..i]
    && (i == |a| || a[i] < b[i])
  }

  lemma {:induction false} LessIsLexicographic(a: string, b: string)
    ensures Less(a, b) <==> exists i: nat :: DiffersAt(a, b, i)
  {
    if a == "" || b == "" {
      if a == "" && b != "" { assert DiffersAt(a, b, 0); }
    } else {
      LessIsLexicographic(a[1..], b[1..]);
      if a[0] < b[0] {
        assert DiffersAt(a, b, 0);
      } else if a[0] == b[0] && Less(a[1..], b[1..]) {
        var i: nat :| DiffersAt(a[1..], b[1..], i);
        assert a[..i + 1] == [a[0]] + a[1..][..i] && b[..i + 1] == [b[0]] + b[1..][..i];
        assert DiffersAt(a, b, i + 1);
      }
      if i: nat :| DiffersAt(a, b, i) {
        if i > 0 {
          assert a[0] == a[..i][0] && b[0] == b[..i][0];
          assert a[1..][..i - 1] == a[..i][1..] && b[1..][..i - 1] == b[..i][1..];
          assert DiffersAt(a[1..], b[1..], i - 1);
        }
      }
    }
  }

  lemma {:induction false} LessTotal(a: string, b: string)
    ensures a == b || Less(a, b) || Less(b, a)
    ensures !(Less(a, b) && Less(b, a)) && !Less(a, a)
  {
    if a != "" && b != "" {
      LessTotal(a[1..], b[1..]);
      LessTotal(a[1..], a[1..]);
      assert a == [a[0]] + a[1..] && b == [b[0]] + b[1..];
    } else if a != "" {
      LessTotal(a[1..], a[1..]);
    }
  }

  lemma {:induction false} LessTransitive(a: string, b: string, c: string)
    requires Less(a, b) && Less(b, c)
    ensures Less(a, c)
  {
    if a != "" && a[0] == b[0] == c[0] {
      LessTransitive(a[1..], b[1..], c[1..]);
    }
  }

  function CanonicalPair(v1: string, v2: string): Pair {
    if v1 == v2 || Less(v1, v2) then (v1, v2) else (v2, v1)
  }

  lemma CanonicalPairIsUnordered(v1: string, v2: string, w1: string, w2: string)
    ensures CanonicalPair(v1, v2) == CanonicalPair(w1, w2) <==> {v1, v2} == {w1, w2}
  {
    LessTotal(v1, v2);
    LessTotal(w1, w2);
    if {v1, v2} == {w1, w2} {
      assert v1 in {w1, w2} && v2 in {w1, w2} && w1 in {v1, v2} && w2 in {v1, v2};
    }
  }

  // ---- The measure ----

  /** How far b's mid is above a's, in ten-thousandths of the mean of the two. */
  function DivergenceBps(a: Quote, b: Quote): Double {
    var reference := (a.Mid() + b.Mid()) / 2.0;
    if reference <= 0.0 then NotANumber else Finite((b.Mid() - a.Mid()) / reference * 10000.0)
  }

  /** For valid quotes the measure exists, is strictly inside +-20000, is zero or
      positive exactly with the difference of mids, and flips sign when swapped. */
  lemma BpsProperties(a: Quote, b: Quote)
    requires a.IsValid() && b.IsValid()
    ensures DivergenceBps(a, b).Finite? && DivergenceBps(b, a).Finite?
    ensures -20000.0 < DivergenceBps(a, b).value < 20000.0
    ensures DivergenceBps(a, b).value > 0.0 <==> b.Mid() > a.Mid()
    ensures DivergenceBps(b, a).value == -DivergenceBps(a, b).value
    ensures var x, y := a.bidPrice + a.askPrice, b.bidPrice + b.askPrice;
            DivergenceBps(a, b).value * (x + y) == 20000.0 * (y - x)
  {
    var x, y := a.Mid(), b.Mid();
    assert x > 0.0 && y > 0.0;
    assert (y + x) / 2.0 == (x + y) / 2.0;
    RelativeDifference(x, y);
    BpsOfMids(x, y);
  }

  lemma BpsOfMids(x: real, y: real)
    requires x > 0.0 && y > 0.0
    ensures ((y - x) / ((x + y) / 2.0) * 10000.0) * (2.0 * x + 2.0 * y) == 20000.0 * (2.0 * y - 2.0 * x)
  {
    var r := (x + y) / 2.0;
    var q := (y - x) / r;
    assert q * r == y - x;
    assert (q * 10000.0) * (4.0 * r) == 40000.0 * (q * r);
  }

  lemma RelativeDifference(x: real, y: real)
    requires x > 0.0 && y > 0.0
    ensures var r := (x + y) / 2.0;
            && -2.0 < (y - x) / r < 2.0
            && ((y - x) / r > 0.0 <==> y > x)
            && (x - y) / r == -((y - x) / r)
  {
    var r := (x + y) / 2.0;
    Quotient(y - x, r, 2.0);
    Quotient(y - x, r, -2.0);
    Quotient(y - x, r, 0.0);
    assert x - y == -(y - x);
  }

  // ---- Evaluation ----

  datatype Result = Result(events: seq<DivergenceEvent>, baselines: Baselines)

  predicate IsFresh(q: Quote, nowUs: int, cfg: Config) {
    q.IsValid() && nowUs - q.eventTimeUs <= cfg.maxQuoteAgeUs
  }

  function FreshOf(quotes: seq<Quote>, nowUs: int, cfg: Config): seq<Quote> {
    if quotes == [] then []
    else (if IsFresh(quotes[0], nowUs, cfg) then [quotes[0]] else []) + FreshOf(quotes[1..], nowUs, cfg)
  }

  function InsertByVenue(q: Quote, sorted: seq<Quote>): seq<Quote> {
    if sorted == [] then [q]
    else if Less(sorted[0].venue, q.venue) then [sorted[0]] + InsertByVenue(q, sorted[1..])
    else [q] + sorted
  }

  /** A stable sort by venue. */
  function SortByVenue(quotes: seq<Quote>): seq<Quote> {
    if quotes == [] then [] else InsertByVenue(quotes[0], SortByVenue(quotes[1..]))
  }

  function PairWith(a: Quote, rest: seq<Quote>): seq<(Quote, Quote)> {
    seq(|rest|, i requires 0 <= i < |rest| => (a, rest[i]))
  }

  /** All pairs i < j, by i and then by j. */
  function PairsOf(quotes: seq<Quote>): seq<(Quote, Quote)> {
    if quotes == [] then [] else PairWith(quotes[0], quotes[1..]) + PairsOf(quotes[1..])
  }

  function KeyOf(p: (Quote, Quote)): Pair { CanonicalPair(p.0.venue, p.1.venue) }

  /** What one pair does on its own, given its baseline before the observation. */
  function Decide(symbol: string, p: (Quote, Quote), prior: Option<Baseline>, cfg: Config): Option<DivergenceEvent> {
    var (a, b) := p;
    match DivergenceBps(a, b)
    case Finite(bps) =>
      if prior.Some? && prior.value.IsWarm(cfg.minObservations)
         && (bps >= cfg.minDivergenceBps || -bps >= cfg.minDivergenceBps)
         && prior.value.Zscore(bps).AtLeast(cfg.minZscore)
      then Some(DivergenceEvent(symbol, a.venue, b.venue, a.Mid(), b.Mid(), bps, prior.value.Zscore(bps),
                                Min(a.eventTimeUs, b.eventTimeUs), Max(a.eventTimeUs, b.eventTimeUs)))
      else None
    case _ => None
  }

  /** One step of the fold: the accumulated baselines are read, then observed into. */
  function EvaluatePair(symbol: string, acc: Result, p: (Quote, Quote), cfg: Config): Result
    requires cfg.baselineWindow > 1
  {
    var bps := DivergenceBps(p.0, p.1);
    if !bps.Finite? then acc
    else
      var pair := KeyOf(p);
      var prior := Get(acc.baselines, pair);
      var updated := acc.baselines[pair := Observed(prior, bps, cfg.baselineWindow)];
      match Decide(symbol, p, prior, cfg)
      case None => Result(acc.events, updated)
      case Some(ev) => Result(acc.events + [ev], updated)
  }

  function EvaluatePairs(symbol: string, pairs: seq<(Quote, Quote)>, b: Baselines, cfg: Config): Result
    requires cfg.baselineWindow > 1
  {
    if pairs == [] then Result([], b)
    else EvaluatePair(symbol, EvaluatePairs(symbol, pairs[..|pairs| - 1], b, cfg), pairs[|pairs| - 1], cfg)
  }

  /** `quotes` lists the map's values in whatever order it yields them. */
  function Evaluate(symbol: string, quotes: seq<Quote>, b: Baselines, nowUs: int, cfg: Config): Result
    requires cfg.baselineWindow > 1
  {
    var live := SortByVenue(FreshOf(quotes, nowUs, cfg));
    if |live| < 2 then Result([], b) else EvaluatePairs(symbol, PairsOf(live), b, cfg)
  }

  // ---- Sorting ----

  ghost predicate DistinctVenues(quotes: seq<Quote>) {
    forall i, j :: 0 <= i < j < |quotes| ==> quotes[i].venue != quotes[j].venue
  }

  ghost predicate SortedByVenue(quotes: seq<Quote>) {
    forall i, j :: 0 <= i < j < |quotes| ==> Less(quotes[i].venue, quotes[j].venue)
  }

  lemma {:induction false} FreshMembers(quotes: seq<Quote>, nowUs: int, cfg: Config)
    ensures forall q :: q in FreshOf(quotes, nowUs, cfg) <==> q in quotes && IsFresh(q, nowUs, cfg)
    ensures DistinctVenues(quotes) ==> DistinctVenues(FreshOf(quotes, nowUs, cfg))
  {
    if quotes != [] {
      var rest := quotes[1..];
      FreshMembers(rest, nowUs, cfg);
      assert quotes == [quotes[0]] + rest;
      if DistinctVenues(quotes) {
        assert DistinctVenues(rest);
        forall q | q in FreshOf(rest, nowUs, cfg) ensures q.venue != quotes[0].venue {
          var i :| 0 <= i < |rest| && rest[i] == q;
          assert quotes[i + 1] == q;
        }
        ConsDistinct(quotes[0], FreshOf(rest, nowUs, cfg));
      }
    }
  }

  lemma ConsDistinct(q: Quote, rest: seq<Quote>)
    requires DistinctVenues(rest) && forall x :: x in rest ==> x.venue != q.venue
    ensures DistinctVenues([q] + rest)
  {
  }

  lemma ConsSorted(q: Quote, rest: seq<Quote>)
    requires SortedByVenue(rest) && forall x :: x in rest ==> Less(q.venue, x.venue)
    ensures SortedByVenue([q] + rest)
  {
  }

  lemma {:induction false} InsertSorts(q: Quote, sorted: seq<Quote>)
    requires SortedByVenue(sorted) && forall x :: x in sorted ==> x.venue != q.venue
    ensures SortedByVenue(InsertByVenue(q, sorted))
    ensures forall x :: x in InsertByVenue(q, sorted) <==> x == q || x in sorted
  {
    if sorted != [] {
      var head, rest := sorted[0], sorted[1..];
      assert sorted == [head] + rest;
      assert forall x :: x in rest ==> Less(head.venue, x.venue);
      LessTotal(head.venue, q.venue);
      if Less(head.venue, q.venue) {
        InsertSorts(q, rest);
        ConsSorted(head, InsertByVenue(q, rest));
      } else {
        forall x | x in sorted ensures Less(q.venue, x.venue) {
          if x != head { LessTransitive(q.venue, head.venue, x.venue); }
        }
        ConsSorted(q, sorted);
      }
    }
  }

  lemma {:induction false} SortSorts(quotes: seq<Quote>)
    requires DistinctVenues(quotes)
    ensures SortedByVenue(SortByVenue(quotes))
    ensures forall x :: x in SortByVenue(quotes) <==> x in quotes
  {
    if quotes != [] {
      var rest := quotes[1..];
      SortSorts(rest);
      assert quotes == [quotes[0]] + rest;
      forall x | x in rest ensures x.venue != quotes[0].venue {
        var i :| 0 <= i < |rest| && rest[i] == x;
        assert quotes[i + 1] == x;
      }
      InsertSorts(quotes[0], SortByVenue(rest));
    }
  }

  lemma {:induction false} SortedUnique(s: seq<Quote>, t: seq<Quote>)
    requires SortedByVenue(s) && SortedByVenue(t) && forall x :: x in s <==> x in t
    ensures s == t
  {
    assert s != [] ==> s[0] in t;
    assert t != [] ==> t[0] in s;
    if s != [] {
      var j :| 0 <= j < |t| && t[j] == s[0];
      var i :| 0 <= i < |s| && s[i] == t[0];
      LessTotal(s[0].venue, t[0].venue);
      assert s[0] == t[0];
      forall x ensures x in s[1..] <==> x in t[1..] {
        TailMember(s, x);
        TailMember(t, x);
      }
      SortedUnique(s[1..], t[1..]);
      assert s == [s[0]] + s[1..] && t == [t[0]] + t[1..];
    }
  }

  lemma TailMember(s: seq<Quote>, x: Quote)
    requires SortedByVenue(s) && s != []
    ensures x in s[1..] <==> x in s && x != s[0]
  {
    assert s == [s[0]] + s[1..];
    forall i | 0 < i < |s| ensures s[i] != s[0] { LessTotal(s[0].venue, s[i].venue); }
  }

  /** Sorting erases the order the map yields its values in. */
  lemma OrderIrrelevant(
      symbol: string, quotes: seq<Quote>, others: seq<Quote>, b: Baselines, nowUs: int, cfg: Config)
    requires cfg.baselineWindow > 1 && DistinctVenues(quotes) && DistinctVenues(others)
    requires forall q :: q in quotes <==> q in others
    ensures Evaluate(symbol, quotes, b, nowUs, cfg) == Evaluate(symbol, others, b, nowUs, cfg)
  {
    var f, g := FreshOf(quotes, nowUs, cfg), FreshOf(others, nowUs, cfg);
    FreshMembers(quotes, nowUs, cfg);
    FreshMembers(others, nowUs, cfg);
    SortSorts(f);
    SortSorts(g);
    SortedUnique(SortByVenue(f), SortByVenue(g));
  }

  // ---- Pairs ----

  ghost predicate DistinctKeys(pairs: seq<(Quote, Quote)>) {
    forall i, j :: 0 <= i < j < |pairs| ==> KeyOf(pairs[i]) != KeyOf(pairs[j])
  }

  lemma {:induction false} PairsMembers(quotes: seq<Quote>, p: (Quote, Quote))
    ensures p in PairsOf(quotes) <==> exists i, j :: 0 <= i < j < |quotes| && p == (quotes[i], quotes[j])
  {
    if quotes != [] {
      var rest := quotes[1..];
      PairsMembers(rest, p);
      var firsts := PairWith(quotes[0], rest);
      if p in firsts {
        var k :| 0 <= k < |firsts| && firsts[k] == p;
        assert p == (quotes[0], quotes[k + 1]);
      }
      if p in PairsOf(rest) {
        var i, j :| 0 <= i < j < |rest| && p == (rest[i], rest[j]);
        assert p == (quotes[i + 1], quotes[j + 1]);
      }
      if i, j :| 0 <= i < j < |quotes| && p == (quotes[i], quotes[j]) {
        if i == 0 {
          assert firsts[j - 1] == p;
        } else {
          assert p == (rest[i - 1], rest[j - 1]);
        }
      }
    }
  }

  /** In a sorted list every pair is keyed by its venues in list order. */
  lemma SortedPairKey(quotes: seq<Quote>, p: (Quote, Quote))
    requires SortedByVenue(quotes) && p in PairsOf(quotes)
    ensures p.0 in quotes && p.1 in quotes && KeyOf(p) == (p.0.venue, p.1.venue)
  {
    PairsMembers(quotes, p);
  }

  lemma DistinctKeysConcat(ps: seq<(Quote, Quote)>, qs: seq<(Quote, Quote)>)
    requires DistinctKeys(ps) && DistinctKeys(qs)
    requires forall p, q :: p in ps && q in qs ==> KeyOf(p) != KeyOf(q)
    ensures DistinctKeys(ps + qs)
  {
    var all := ps + qs;
    forall i, j | 0 <= i < j < |all| ensures KeyOf(all[i]) != KeyOf(all[j]) {
      if j < |ps| {
      } else if i < |ps| {
        assert all[i] in ps && all[j] == qs[j - |ps|] && all[j] in qs;
      } else {
        assert all[i] == qs[i - |ps|] && all[j] == qs[j - |ps|];
      }
    }
  }

  lemma PairWithDistinct(a: Quote, rest: seq<Quote>)
    requires SortedByVenue([a] + rest)
    ensures DistinctKeys(PairWith(a, rest))
    ensures forall p :: p in PairWith(a, rest) ==> KeyOf(p).0 == a.venue
  {
    var all := [a] + rest;
    forall k | 0 <= k < |rest| ensures KeyOf((a, rest[k])) == (a.venue, rest[k].venue) {
      assert all[0] == a && all[k + 1] == rest[k];
    }
    forall i, j | 0 <= i < j < |rest| ensures rest[i].venue != rest[j].venue {
      assert all[i + 1] == rest[i] && all[j + 1] == rest[j];
      LessTotal(rest[i].venue, rest[j].venue);
    }
  }

  lemma {:induction false} SortedPairsDistinct(quotes: seq<Quote>)
    requires SortedByVenue(quotes)
    ensures DistinctKeys(PairsOf(quotes))
  {
    if quotes != [] {
      var a, rest := quotes[0], quotes[1..];
      assert quotes == [a] + rest;
      SortedPairsDistinct(rest);
      PairWithDistinct(a, rest);
      forall p, q | p in PairWith(a, rest) && q in PairsOf(rest) ensures KeyOf(p) != KeyOf(q) {
        SortedPairKey(rest, q);
        var m :| 0 <= m < |rest| && rest[m] == q.0;
        assert quotes[m + 1] == q.0;
        LessTotal(a.venue, q.0.venue);
      }
      DistinctKeysConcat(PairWith(a, rest), PairsOf(rest));
    }
  }

  // ---- The threaded fold decides every pair independently ----

  /** Decisions of each pair on its own, all against the same baselines. */
  ghost function Decisions(
      symbol: string, pairs: seq<(Quote, Quote)>, b: Baselines, cfg: Config): seq<DivergenceEvent>
  {
    if pairs == [] then []
    else
      var init, p := pairs[..|pairs| - 1], pairs[|pairs| - 1];
      Decisions(symbol, init, b, cfg) +
      match Decide(symbol, p, Get(b, KeyOf(p)), cfg)
      case None => []
      case Some(ev) => [ev]
  }

  ghost predicate ObservedOnce(pairs: seq<(Quote, Quote)>, before: Baselines, after: Baselines, cfg: Config)
    requires cfg.baselineWindow > 1
  {
    && (forall i :: 0 <= i < |pairs| ==>
          var key, bps := KeyOf(pairs[i]), DivergenceBps(pairs[i].0, pairs[i].1);
          Get(after, key) == Some(Observed(Get(before, key), bps, cfg.baselineWindow)))
    && (forall key :: (forall i :: 0 <= i < |pairs| ==> KeyOf(pairs[i]) != key) ==> Get(after, key) == Get(before, key))
  }

  lemma ObserveExtends(init: seq<(Quote, Quote)>, p: (Quote, Quote), before: Baselines, mid: Baselines, cfg: Config)
    requires cfg.baselineWindow > 1 && ObservedOnce(init, before, mid, cfg) && DistinctKeys(init + [p])
    ensures Get(mid, KeyOf(p)) == Get(before, KeyOf(p))
    ensures var bps := DivergenceBps(p.0, p.1);
            ObservedOnce(init + [p], before,
                         mid[KeyOf(p) := Observed(Get(mid, KeyOf(p)), bps, cfg.baselineWindow)], cfg)
  {
    var pairs, n := init + [p], |init|;
    assert pairs[n] == p && forall i :: 0 <= i < n ==> pairs[i] == init[i] && KeyOf(init[i]) != KeyOf(p);
    var after := mid[KeyOf(p) := Observed(Get(mid, KeyOf(p)), DivergenceBps(p.0, p.1), cfg.baselineWindow)];
    forall key | forall i :: 0 <= i < |pairs| ==> KeyOf(pairs[i]) != key
      ensures Get(after, key) == Get(before, key)
    {
      assert KeyOf(pairs[n]) != key;
      assert forall i :: 0 <= i < n ==> KeyOf(init[i]) == KeyOf(pairs[i]);
    }
  }

  lemma {:induction false} FoldIsIndependent(symbol: string, pairs: seq<(Quote, Quote)>, b: Baselines, cfg: Config)
    requires cfg.baselineWindow > 1 && DistinctKeys(pairs)
    requires forall i :: 0 <= i < |pairs| ==> DivergenceBps(pairs[i].0, pairs[i].1).Finite?
    ensures EvaluatePairs(symbol, pairs, b, cfg).events == Decisions(symbol, pairs, b, cfg)
    ensures ObservedOnce(pairs, b, EvaluatePairs(symbol, pairs, b, cfg).baselines, cfg)
  {
    if pairs != [] {
      hide ObservedOnce, Decide, Observed, DivergenceBps;
      var n := |pairs| - 1;
      var init, p := pairs[..n], pairs[n];
      assert pairs == init + [p];
      FoldIsIndependent(symbol, init, b, cfg);
      ObserveExtends(init, p, b, EvaluatePairs(symbol, init, b, cfg).baselines, cfg);
    }
  }

  /** Whatever order the quotes come in: every pair of distinct fresh venues is decided
      against the baselines as they were, observed exactly once under its own key, and
      nothing else changes. */
  lemma PairsAreIndependent(symbol: string, quotes: seq<Quote>, b: Baselines, nowUs: int, cfg: Config)
    requires cfg.baselineWindow > 1 && DistinctVenues(quotes)
    ensures var live, r := SortByVenue(FreshOf(quotes, nowUs, cfg)), Evaluate(symbol, quotes, b, nowUs, cfg);
            && SortedByVenue(live)
            && (forall q :: q in live <==> q in quotes && IsFresh(q, nowUs, cfg))
            && DistinctKeys(PairsOf(live))
            && r.events == Decisions(symbol, PairsOf(live), b, cfg)
            && ObservedOnce(PairsOf(live), b, r.baselines, cfg)
  {
    var live := SortByVenue(FreshOf(quotes, nowUs, cfg));
    FreshMembers(quotes, nowUs, cfg);
    SortSorts(FreshOf(quotes, nowUs, cfg));
    SortedPairsDistinct(live);
    var pairs := PairsOf(live);
    forall i | 0 <= i < |pairs| ensures DivergenceBps(pairs[i].0, pairs[i].1).Finite? {
      assert pairs[i] in pairs;
      SortedPairKey(live, pairs[i]);
      BpsProperties(pairs[i].0, pairs[i].1);
    }
    FoldIsIndependent(symbol, pairs, b, cfg);
    if |live| < 2 {
      FewQuotesNoPairs(live);
    }
  }

  lemma FewQuotesNoPairs(live: seq<Quote>)
    requires |live| < 2
    ensures PairsOf(live) == []
  {
    if live != [] {
      assert live[1..] == [] && PairsOf(live[1..]) == [];
    }
  }

  /** A pair of fresh venues is observed once, under its venues in order. */
  lemma FreshPairIsObserved(
      symbol: string, quotes: seq<Quote>, b: Baselines, nowUs: int, cfg: Config, p: Quote, q: Quote)
    requires cfg.baselineWindow > 1 && DistinctVenues(quotes) && Less(p.venue, q.venue)
    requires p in quotes && q in quotes && IsFresh(p, nowUs, cfg) && IsFresh(q, nowUs, cfg)
    ensures Get(Evaluate(symbol, quotes, b, nowUs, cfg).baselines, (p.venue, q.venue)) ==
            Some(Observed(Get(b, (p.venue, q.venue)), DivergenceBps(p, q), cfg.baselineWindow))
  {
    hide Evaluate, Decisions, DivergenceBps, Observed, DistinctKeys, PairsOf, FreshOf, SortByVenue, IsFresh, Less;
    PairsAreIndependent(symbol, quotes, b, nowUs, cfg);
    var live := SortByVenue(FreshOf(quotes, nowUs, cfg));
    SortedPairIsListed(live, p, q);
    var pairs := PairsOf(live);
    var m :| 0 <= m < |pairs| && pairs[m] == (p, q);
    assert KeyOf(pairs[m]) == (p.venue, q.venue);
  }

  lemma SortedPairIsListed(live: seq<Quote>, p: Quote, q: Quote)
    requires SortedByVenue(live) && p in live && q in live && Less(p.venue, q.venue)
    ensures (p, q) in PairsOf(live) && KeyOf((p, q)) == (p.venue, q.venue)
  {
    hide PairsOf;
    var i :| 0 <= i < |live| && live[i] == p;
    var j :| 0 <= j < |live| && live[j] == q;
    LessTotal(p.venue, q.venue);
    PairsMembers(live, (p, q));
  }

  /** Every other pair keeps its baseline. */
  lemma OtherPairsAreKept(symbol: string, quotes: seq<Quote>, b: Baselines, nowUs: int, cfg: Config, pair: Pair)
    requires cfg.baselineWindow > 1 && DistinctVenues(quotes)
    requires forall p, q | p in quotes && q in quotes && Less(p.venue, q.venue) ::
               IsFresh(p, nowUs, cfg) && IsFresh(q, nowUs, cfg) ==> (p.venue, q.venue) != pair
    ensures Get(Evaluate(symbol, quotes, b, nowUs, cfg).baselines, pair) == Get(b, pair)
  {
    hide Evaluate, Decisions, DivergenceBps, Observed;
    PairsAreIndependent(symbol, quotes, b, nowUs, cfg);
    var live := SortByVenue(FreshOf(quotes, nowUs, cfg));
    var pairs := PairsOf(live);
    forall m | 0 <= m < |pairs| ensures KeyOf(pairs[m]) != pair {
      assert pairs[m] in pairs;
      SortedPairKey(live, pairs[m]);
      PairsMembers(live, pairs[m]);
    }
  }

  ghost predicate AllConsistent(b: Baselines) {
    forall pair :: pair in b ==> b[pair].Consistent()
  }

  lemma {:induction false} PairsKeepConsistent(symbol: string, pairs: seq<(Quote, Quote)>, b: Baselines, cfg: Config)
    requires cfg.baselineWindow > 1 && AllConsistent(b)
    ensures AllConsistent(EvaluatePairs(symbol, pairs, b, cfg).baselines)
  {
    if pairs != [] {
      var init, p := pairs[..|pairs| - 1], pairs[|pairs| - 1];
      PairsKeepConsistent(symbol, init, b, cfg);
      hide Decide, Sum, SumSq;
      var prior := Get(EvaluatePairs(symbol, init, b, cfg).baselines, KeyOf(p));
      AddKeepsSums(prior.GetOr(EmptyStats(cfg.baselineWindow)), DivergenceBps(p.0, p.1));
    }
  }

  /** Why a pair's score is read before its observation is folded in, at every threshold:
      on a warm baseline that is not constant, whatever would fire if it were read
      afterwards fires when it is read before. (A full baseline is compared once it has
      given up its oldest observation, which the later reading does too.) */
  lemma ReadingAfterwardsLosesAlerts(symbol: string, p: (Quote, Quote), prior: Baseline, cfg: Config)
    requires p.0.IsValid() && p.1.IsValid() && prior.Consistent() && cfg.minZscore > 0.0
    requires var roomy := WithRoom(prior);
             |roomy.values| >= 2 && roomy.IsWarm(cfg.minObservations) && !Constant(roomy.values)
    ensures |prior.values| < prior.capacity ==> WithRoom(prior) == prior
    ensures Decide(symbol, p, Some(prior.Add(DivergenceBps(p.0, p.1))), cfg).Some? ==>
              Decide(symbol, p, Some(WithRoom(prior)), cfg).Some?
  {
    hide Sum, SumSq, Constant, DivergenceBps, RollingStats.Add, RollingStats.Zscore;
    BpsProperties(p.0, p.1);
    FoldingFirstDampens(prior, DivergenceBps(p.0, p.1).value, cfg.minZscore);
  }

  /** The exception: a constant baseline never fires, but read afterwards it would, on
      any other divergence that is large enough, as soon as it has enough observations
      for (n - 1) / sqrt(n) to reach the threshold, n counting the new one. */
  lemma ConstantBaselineFiresOnlyAfterwards(symbol: string, p: (Quote, Quote), prior: Baseline, cfg: Config)
    requires p.0.IsValid() && p.1.IsValid() && prior.Consistent() && cfg.minZscore > 0.0
    requires 2 <= |prior.values| < prior.capacity && prior.IsWarm(cfg.minObservations) && Constant(prior.values)
    ensures Decide(symbol, p, Some(prior), cfg) == None
    ensures var bps := DivergenceBps(p.0, p.1);
            bps != prior.Mean() ==>
              (Decide(symbol, p, Some(prior.Add(bps)), cfg).Some? <==>
               MaxReal(bps.value, -bps.value) >= cfg.minDivergenceBps
               && cfg.minZscore * cfg.minZscore <= SamuelsonBound(|prior.values| + 1))
  {
    hide Sum, SumSq, Constant, DivergenceBps, SamuelsonBound, RollingStats.Zscore;
    BpsProperties(p.0, p.1);
    ConstantWindowScores(prior, DivergenceBps(p.0, p.1).value, cfg.minZscore);
  }

  /** The extreme case: while the threshold exceeds (n - 1) / sqrt(n), which a threshold
      of 3 does for up to ten observations, reading afterwards never fires at all. */
  lemma ReadingAfterwardsNeverFires(symbol: string, p: (Quote, Quote), prior: Baseline, cfg: Config)
    requires p.0.IsValid() && p.1.IsValid() && prior.Consistent() && |prior.values| >= 1 && cfg.minZscore > 0.0
    requires var after := prior.Add(DivergenceBps(p.0, p.1));
             |after.values| >= 1 && cfg.minZscore * cfg.minZscore > SamuelsonBound(|after.values|)
    ensures Decide(symbol, p, Some(prior.Add(DivergenceBps(p.0, p.1))), cfg) == None
  {
    BpsProperties(p.0, p.1);
    FoldingFirstSilencesAlerts(prior, DivergenceBps(p.0, p.1).value, cfg.minZscore);
  }

  /** An alert fires exactly when the baseline has enough observations (and at least
      two), the divergence is large enough in absolute terms, and it is far enough from
      the mean of a window that is not constant, by the window's recomputed variance. */
  lemma AlertFiresIff(symbol: string, p: (Quote, Quote), prior: Baseline, cfg: Config)
    requires p.0.IsValid() && p.1.IsValid() && prior.Consistent() && cfg.minZscore > 0.0
    ensures var bps, n := DivergenceBps(p.0, p.1).value, |prior.values|;
            Decide(symbol, p, Some(prior), cfg).Some? <==>
            && n >= 2 && n >= cfg.minObservations
            && MaxReal(bps, -bps) >= cfg.minDivergenceBps
            && !Constant(prior.values)
            && var d := bps - Sum(prior.values) / n as real;
               d * d >= cfg.minZscore * cfg.minZscore * RawVariance(n, Sum(prior.values), SumSq(prior.values))
  {
    hide Sum, SumSq, Constant, RawVariance, DivergenceBps;
    BpsProperties(p.0, p.1);
    ScoreFromValues(prior, DivergenceBps(p.0, p.1).value, cfg.minZscore);
  }

  /** What an alert says, in terms of the two quotes: who and at what mids, how far apart
      in ten-thousandths of the mean of their mids, the score against the baseline as it
      was, and the times of the older and the newer quote. */
  lemma AlertContents(symbol: string, p: (Quote, Quote), prior: Option<Baseline>, cfg: Config)
    requires p.0.IsValid() && p.1.IsValid() && Decide(symbol, p, prior, cfg).Some?
    ensures var e, a, b := Decide(symbol, p, prior, cfg).value, p.0, p.1;
            && e.symbol == symbol && e.venueA == a.venue && e.venueB == b.venue
            && 2.0 * e.priceA == a.bidPrice + a.askPrice && 2.0 * e.priceB == b.bidPrice + b.askPrice
            && e.divergenceBps * (e.priceA + e.priceB) == 20000.0 * (e.priceB - e.priceA)
            && prior.Some? && e.zscore == prior.value.Zscore(e.divergenceBps)
            && e.windowStartUs <= a.eventTimeUs <= e.eventTimeUs && e.windowStartUs <= b.eventTimeUs <= e.eventTimeUs
            && {e.windowStartUs, e.eventTimeUs} == {a.eventTimeUs, b.eventTimeUs}
  {
    hide RollingStats.Zscore, DivergenceBps;
    var e, a, b := Decide(symbol, p, prior, cfg).value, p.0, p.1;
    BpsProperties(a, b);
    assert e.divergenceBps * (2.0 * (e.priceA + e.priceB)) == 20000.0 * (2.0 * (e.priceB - e.priceA));
  }

  /** A quote is compared for exactly `maxQuoteAgeUs` after its event time, and only if
      both its prices are positive and not crossed. */
  lemma FreshUntilMaxAge(quotes: seq<Quote>, q: Quote, nowUs: int, cfg: Config)
    requires q in quotes && DistinctVenues(quotes)
    ensures q in SortByVenue(FreshOf(quotes, nowUs, cfg)) <==>
            0.0 < q.bidPrice <= q.askPrice && nowUs <= q.eventTimeUs + cfg.maxQuoteAgeUs
  {
    FreshMembers(quotes, nowUs, cfg);
    SortSorts(FreshOf(quotes, nowUs, cfg));
  }

  /** Swapping the two venues flips signs and nothing else: against the mirrored
      baseline the swapped pair fires exactly when the original does, with the opposite
      divergence and score. */
  lemma SwapMirrorsDecision(symbol: string, p: (Quote, Quote), prior: Baseline, cfg: Config)
    requires p.0.IsValid() && p.1.IsValid() && prior.Consistent()
    ensures match (Decide(symbol, p, Some(prior), cfg), Decide(symbol, (p.1, p.0), Some(Mirror(prior)), cfg))
            case (None, None) => true
            case (Some(e), Some(f)) =>
              && f.divergenceBps == -e.divergenceBps
              && (f.venueA, f.venueB, f.priceA, f.priceB) == (e.venueB, e.venueA, e.priceB, e.priceA)
              && (f.windowStartUs, f.eventTimeUs) == (e.windowStartUs, e.eventTimeUs)
              && e.zscore.Score? && f.zscore.Score?
              && f.zscore.deviation == -e.zscore.deviation && f.zscore.variance == e.zscore.variance
            case _ => false
  {
    BpsProperties(p.0, p.1);
    MirrorFlipsScores(prior, DivergenceBps(p.0, p.1).value, cfg.minZscore);
    assert |Mirror(prior).values| == |prior.values|;
  }
}
