/** The operator behind divergence alerts, keyed by symbol: the latest quote per venue,
    and the pair baselines. */
module DivergenceOperator {
  import opened Events
  import opened Rolling
  import opened Divergence

  type Latest = map<string, Quote>

  predicate IsLate(latest: Latest, q: Quote) {
    q.venue in latest && latest[q.venue].eventTimeUs > q.eventTimeUs
  }

  function AfterQuote(latest: Latest, q: Quote): Latest {
    if IsLate(latest, q) then latest else latest[q.venue := q]
  }

  /** A listing of a map's values, each once, in some order. */
  ghost predicate Lists(quotes: seq<Quote>, latest: Latest) {
    && DistinctVenues(quotes)
    && forall q :: q in quotes <==> q.venue in latest && latest[q.venue] == q
  }

  ghost predicate KeyedByVenue(latest: Latest) {
    forall v :: v in latest ==> latest[v].venue == v
  }

  class DivergenceFunction {
    const symbol: string
    const cfg: Config
    var latestByVenue: Latest
    var baselines: Baselines

    constructor (symbol: string, cfg: Config)
      ensures this.symbol == symbol && this.cfg == cfg
      ensures latestByVenue == map[] && baselines == map[]
    {
      this.symbol, this.cfg := symbol, cfg;
      latestByVenue, baselines := map[], map[];
    }

    /** A late quote changes nothing; any other is stored and every pair evaluated as of
        its event time. The result is the same for every order the state backend may
        list the stored quotes in. */
    method ProcessElement(quote: Quote) returns (events: seq<DivergenceEvent>)
      requires cfg.baselineWindow > 1 && KeyedByVenue(latestByVenue) && AllConsistent(baselines)
      modifies this
      ensures KeyedByVenue(latestByVenue) && AllConsistent(baselines)
      ensures latestByVenue == AfterQuote(old(latestByVenue), quote)
      ensures IsLate(old(latestByVenue), quote) ==> events == [] && baselines == old(baselines)
      ensures !IsLate(old(latestByVenue), quote) ==>
                forall listing :: Lists(listing, latestByVenue) ==>
                  Result(events, baselines) == Evaluate(symbol, listing, old(baselines), quote.eventTimeUs, cfg)
    {
      if quote.venue in latestByVenue && latestByVenue[quote.venue].eventTimeUs > quote.eventTimeUs {
        return [];
      }
      latestByVenue := latestByVenue[quote.venue := quote];
      var quotes := ListLatest();
      var result := Evaluate(symbol, quotes, baselines, quote.eventTimeUs, cfg);
      PairsKeepConsistent(symbol, PairsOf(SortByVenue(FreshOf(quotes, quote.eventTimeUs, cfg))), baselines, cfg);
      forall listing | Lists(listing, latestByVenue)
        ensures result == Evaluate(symbol, listing, baselines, quote.eventTimeUs, cfg)
      {
        OrderIrrelevant(symbol, quotes, listing, baselines, quote.eventTimeUs, cfg);
      }
      baselines := result.baselines;
      events := result.events;
    }

    method ListLatest() returns (quotes: seq<Quote>)
      requires KeyedByVenue(latestByVenue)
      ensures Lists(quotes, latestByVenue)
    {
      quotes := [];
      var todo := latestByVenue.Keys;
      while todo != {}
        invariant todo <= latestByVenue.Keys
        invariant DistinctVenues(quotes)
        invariant forall q :: q in quotes <==>
                    q.venue in latestByVenue && q.venue !in todo && latestByVenue[q.venue] == q
        decreases |todo|
      {
        var v :| v in todo;
        var q := latestByVenue[v];
        assert forall i :: 0 <= i < |quotes| ==> quotes[i] in quotes;
        quotes := quotes + [q];
        todo := todo - {v};
      }
    }
  }

  // ---- What the state holds after any run ----

  function LatestAfter(arrivals: seq<Quote>): Latest {
    if arrivals == [] then map[]
    else AfterQuote(LatestAfter(arrivals[..|arrivals| - 1]), arrivals[|arrivals| - 1])
  }

  /** Arrival i is the last to arrive among its venue's quotes of maximal event time. */
  ghost predicate IsLatestArrival(arrivals: seq<Quote>, i: nat)
    requires i < |arrivals|
  {
    forall j :: 0 <= j < |arrivals| && arrivals[j].venue == arrivals[i].venue ==>
      && arrivals[j].eventTimeUs <= arrivals[i].eventTimeUs
      && (j > i ==> arrivals[j].eventTimeUs < arrivals[i].eventTimeUs)
  }

  lemma {:induction false} LatestIsLastMaximal(arrivals: seq<Quote>, venue: string)
    ensures KeyedByVenue(LatestAfter(arrivals))
    ensures venue in LatestAfter(arrivals) <==> exists j :: 0 <= j < |arrivals| && arrivals[j].venue == venue
    ensures venue in LatestAfter(arrivals) ==>
              exists i :: 0 <= i < |arrivals| && arrivals[i].venue == venue && IsLatestArrival(arrivals, i)
                          && LatestAfter(arrivals)[venue] == arrivals[i]
  {
    if arrivals != [] {
      var n := |arrivals| - 1;
      var init, q := arrivals[..n], arrivals[n];
      LatestIsLastMaximal(init, venue);
      assert forall j :: 0 <= j < n ==> init[j] == arrivals[j];
      if venue in LatestAfter(init) {
        var i :| 0 <= i < n && init[i].venue == venue && IsLatestArrival(init, i)
                 && LatestAfter(init)[venue] == init[i];
        assert arrivals[i].venue == venue;
        if q.venue == venue && !IsLate(LatestAfter(init), q) {
          assert forall j :: 0 <= j < n && arrivals[j].venue == venue ==> init[j].eventTimeUs <= init[i].eventTimeUs;
          assert IsLatestArrival(arrivals, n);
        } else {
          assert IsLatestArrival(arrivals, i);
        }
      } else if q.venue == venue {
        assert IsLatestArrival(arrivals, n) by {
          assert forall j :: 0 <= j < n ==> init[j].venue != venue;
        }
      }
    }
  }

  // ---- What a pair's baseline holds after any run ----

  lemma ListingExists(latest: Latest) returns (quotes: seq<Quote>)
    requires KeyedByVenue(latest)
    ensures Lists(quotes, latest)
    decreases |latest|
  {
    if latest == map[] {
      quotes := [];
    } else {
      var v :| v in latest;
      var rest := ListingExists(latest - {v});
      quotes := rest + [latest[v]];
      assert forall i :: 0 <= i < |rest| ==> rest[i] in rest;
    }
  }

  ghost function Listing(latest: Latest): (quotes: seq<Quote>)
    requires KeyedByVenue(latest)
    ensures Lists(quotes, latest)
  {
    assert exists quotes :: Lists(quotes, latest) by { var quotes := ListingExists(latest); }
    var quotes :| Lists(quotes, latest);
    quotes
  }

  /** The baselines after a run of arrivals, by whatever listing. */
  ghost function BaselinesAfter(symbol: string, cfg: Config, arrivals: seq<Quote>): Baselines
    requires cfg.baselineWindow > 1
  {
    if arrivals == [] then map[]
    else
      var n := |arrivals| - 1;
      var before, q := BaselinesAfter(symbol, cfg, arrivals[..n]), arrivals[n];
      LatestIsLastMaximal(arrivals, q.venue);
      if IsLate(LatestAfter(arrivals[..n]), q) then before
      else Evaluate(symbol, Listing(LatestAfter(arrivals)), before, q.eventTimeUs, cfg).baselines
  }

  predicate BothFresh(latest: Latest, pair: Pair, nowUs: int, cfg: Config) {
    && Less(pair.0, pair.1) && pair.0 in latest && pair.1 in latest
    && IsFresh(latest[pair.0], nowUs, cfg) && IsFresh(latest[pair.1], nowUs, cfg)
  }

  /** A pair's divergences at each evaluation that found both venues fresh. */
  function Divergences(cfg: Config, arrivals: seq<Quote>, pair: Pair): seq<real> {
    if arrivals == [] then []
    else
      var n := |arrivals| - 1;
      var before, latest, q := Divergences(cfg, arrivals[..n], pair), LatestAfter(arrivals), arrivals[n];
      if IsLate(LatestAfter(arrivals[..n]), q) || !BothFresh(latest, pair, q.eventTimeUs, cfg) then before
      else
        BpsProperties(latest[pair.0], latest[pair.1]);
        before + [DivergenceBps(latest[pair.0], latest[pair.1]).value]
  }

  /** A baseline that was fed a run of observations. */
  ghost predicate Holds(b: Option<Baseline>, fed: seq<real>, window: nat) {
    && (b.None? <==> fed == [])
    && (b.Some? ==> b.value.capacity == window && b.value.values == LastN(fed, window) && b.value.Consistent())
  }

  lemma ObservedHolds(b: Option<Baseline>, fed: seq<real>, x: real, window: nat)
    requires window > 1 && Holds(b, fed, window)
    ensures Holds(Some(Observed(b, Finite(x), window)), fed + [x], window)
  {
    hide Sum, SumSq;
    var s := b.GetOr(EmptyStats(window));
    AddKeepsSums(s, Finite(x));
    AddShiftsWindow(s, Finite(x), fed);
  }

  lemma EvaluationHolds(
      symbol: string, cfg: Config, latest: Latest, before: Baselines, nowUs: int, pair: Pair, fed: seq<real>)
    requires cfg.baselineWindow > 1 && KeyedByVenue(latest) && Holds(Get(before, pair), fed, cfg.baselineWindow)
    ensures var after := Get(Evaluate(symbol, Listing(latest), before, nowUs, cfg).baselines, pair);
            if BothFresh(latest, pair, nowUs, cfg) then
              var bps := DivergenceBps(latest[pair.0], latest[pair.1]);
              bps.Finite? && Holds(after, fed + [bps.value], cfg.baselineWindow)
            else Holds(after, fed, cfg.baselineWindow)
  {
    hide Evaluate, Holds, DivergenceBps, Observed;
    var quotes := Listing(latest);
    if BothFresh(latest, pair, nowUs, cfg) {
      var p, q := latest[pair.0], latest[pair.1];
      BpsProperties(p, q);
      FreshPairIsObserved(symbol, quotes, before, nowUs, cfg, p, q);
      ObservedHolds(Get(before, pair), fed, DivergenceBps(p, q).value, cfg.baselineWindow);
    } else {
      OtherPairsAreKept(symbol, quotes, before, nowUs, cfg, pair);
    }
  }

  /** After any run of arrivals, late ones and repeats included, a pair's baseline holds
      exactly the last `baselineWindow` of the divergences measured whenever both of its
      venues were fresh, with its sums recomputable from them; there is none before the
      first of them. */
  lemma {:induction false} BaselineHoldsDivergences(symbol: string, cfg: Config, arrivals: seq<Quote>, pair: Pair)
    requires cfg.baselineWindow > 1
    ensures Holds(Get(BaselinesAfter(symbol, cfg, arrivals), pair), Divergences(cfg, arrivals, pair),
                  cfg.baselineWindow)
  {
    if arrivals == [] {
      NothingHeldYet(symbol, cfg, pair);
    } else {
      hide Holds, Evaluate, BothFresh, LatestAfter, IsLate;
      var n := |arrivals| - 1;
      BaselineHoldsDivergences(symbol, cfg, arrivals[..n], pair);
      LatestIsLastMaximal(arrivals, "");
      EvaluationHolds(symbol, cfg, LatestAfter(arrivals), BaselinesAfter(symbol, cfg, arrivals[..n]),
                      arrivals[n].eventTimeUs, pair, Divergences(cfg, arrivals[..n], pair));
    }
  }

  lemma NothingHeldYet(symbol: string, cfg: Config, pair: Pair)
    requires cfg.baselineWindow > 1
    ensures Holds(Get(BaselinesAfter(symbol, cfg, []), pair), Divergences(cfg, [], pair), cfg.baselineWindow)
  {
  }
}
