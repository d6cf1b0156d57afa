/** Per-stream sequence continuity. */
module Gap {

  datatype Status = OK | First | Gap | Duplicate | Regression | Unsequenced

  datatype Key = Key(venue: string, symbol: string, channel: string)

  datatype Result = Result(key: Key, status: Status, expected: int, got: int, missing: int) {
    predicate NeedsResync() { status.Gap? || status.Regression? }
  }

  type Last = map<Key, int>

  /** The verdict on one number, given what is remembered. */
  function Verdict(last: Last, tolerance: int, k: Key, number: int): Result {
    if number < 0 then Result(k, Unsequenced, 0, number, 0)
    else if k !in last then Result(k, First, number, number, 0)
    else
      var expected := last[k] + 1;
      if number == expected then Result(k, OK, expected, number, 0)
      else if number > expected then Result(k, Gap, expected, number, number - expected)
      else if last[k] - number <= tolerance then Result(k, Duplicate, expected, number, 0)
      else Result(k, Regression, expected, number, 0)
  }

  /** What is remembered afterwards: unsequenced and duplicate numbers leave no mark. */
  function Remember(last: Last, tolerance: int, k: Key, number: int): Last {
    var status := Verdict(last, tolerance, k, number).status;
    if status.Unsequenced? || status.Duplicate? then last else last[k := number]
  }

  function Forget(last: Last, k: Key): Last { last - {k} }

  /** What a gap or regression triggers: nothing, or forgetting the stream. */
  datatype OnResync = Ignore | ForgetStream

  /** What is remembered of one observation once the hook has run. */
  function Settle(onResync: OnResync, last: Last, tolerance: int, k: Key, number: int): Last {
    var last' := Remember(last, tolerance, k, number);
    if onResync.ForgetStream? && Verdict(last, tolerance, k, number).NeedsResync() then Forget(last', k) else last'
  }

  function ForgetVenue(last: Last, venue: string): Last {
    map k | k in last && k.venue != venue :: last[k]
  }

  class Detector {
    var last: Last
    const regressionTolerance: int

    constructor (tolerance: int := 1000)
      ensures last == map[] && regressionTolerance == tolerance
    {
      last, regressionTolerance := map[], tolerance;
    }

    method Observe(k: Key, number: int) returns (r: Result)
      modifies this`last
      ensures r == Verdict(old(last), regressionTolerance, k, number)
      ensures last == Remember(old(last), regressionTolerance, k, number)
    {
      if number < 0 {
        return Result(k, Unsequenced, 0, number, 0);
      }
      if k !in last {
        last := last[k := number];
        return Result(k, First, number, number, 0);
      }
      var prior := last[k];
      var expected := prior + 1;
      if number == expected {
        last := last[k := number];
        return Result(k, OK, expected, number, 0);
      } else if number > expected {
        last := last[k := number];
        return Result(k, Gap, expected, number, number - expected);
      } else if prior - number <= regressionTolerance {
        return Result(k, Duplicate, expected, number, 0);
      } else {
        last := last[k := number];
        return Result(k, Regression, expected, number, 0);
      }
    }

    method Reset(k: Key)
      modifies this`last
      ensures last == Forget(old(last), k)
    {
      last := last - {k};
    }

    method ResetVenue(venue: string)
      modifies this`last
      ensures last == ForgetVenue(old(last), venue)
    {
      var before := last;
      var todo := last.Keys;
      while todo != {}
        invariant todo <= before.Keys
        invariant last == map k | k in before && (k in todo || k.venue != venue) :: before[k]
        decreases |todo|
      {
        var k :| k in todo;
        if k.venue == venue {
          last := last - {k};
        }
        todo := todo - {k};
      }
    }
  }

  // ---- Runs of observations and resets, over any mix of streams ----

  datatype Trace =
    | Fresh
    | Observed(prev: Trace, key: Key, number: int)
    | Reset(prev: Trace, key: Key)
    | ResetVenue(prev: Trace, venue: string)

  function LastAfter(t: Trace, tolerance: int): Last {
    match t
    case Fresh => map[]
    case Observed(prev, k, n) => Remember(LastAfter(prev, tolerance), tolerance, k, n)
    case Reset(prev, k) => Forget(LastAfter(prev, tolerance), k)
    case ResetVenue(prev, v) => ForgetVenue(LastAfter(prev, tolerance), v)
  }

  /** What a run's verdicts add up to, over all streams. */
  datatype Tally = Tally(duplicates: int, discontinuities: int, missing: int)

  function TallyOf(t: Trace, tolerance: int): Tally {
    match t
    case Fresh => Tally(0, 0, 0)
    case Observed(prev, k, n) =>
      var before, r := TallyOf(prev, tolerance), Verdict(LastAfter(prev, tolerance), tolerance, k, n);
      Tally(before.duplicates + (if r.status.Duplicate? then 1 else 0),
            before.discontinuities + (if r.NeedsResync() then 1 else 0),
            before.missing + r.missing)
    case Reset(prev, _) => TallyOf(prev, tolerance)
    case ResetVenue(prev, _) => TallyOf(prev, tolerance)
  }

  predicate Accepts(r: Result) {
    r.status.First? || r.status.OK? || r.status.Gap? || r.status.Regression?
  }

  /** The accepting verdicts of one stream since it was last forgotten. */
  function Accepted(t: Trace, tolerance: int, k: Key): seq<Result> {
    match t
    case Fresh => []
    case Observed(prev, k', n) =>
      var r := Verdict(LastAfter(prev, tolerance), tolerance, k', n);
      if k' == k && Accepts(r) then Accepted(prev, tolerance, k) + [r] else Accepted(prev, tolerance, k)
    case Reset(prev, k') => if k' == k then [] else Accepted(prev, tolerance, k)
    case ResetVenue(prev, v) => if v == k.venue then [] else Accepted(prev, tolerance, k)
  }

  ghost predicate NoRegression(rs: seq<Result>) {
    forall i :: 0 <= i < |rs| ==> !rs[i].status.Regression?
  }

  /** Each verdict stands for the numbers Expected..Got: Got was accepted, the ones
      before it were reported missing. */
  ghost predicate Covers(r: Result, n: int) {
    r.expected <= n <= r.got
  }

  ghost predicate Accounted(rs: seq<Result>, n: int) {
    exists i :: 0 <= i < |rs| && Covers(rs[i], n)
  }

  function TotalMissing(rs: seq<Result>): int {
    if rs == [] then 0 else TotalMissing(rs[..|rs| - 1]) + rs[|rs| - 1].missing
  }

  ghost predicate Chained(rs: seq<Result>) {
    forall i :: 0 <= i < |rs| ==>
      && rs[i].expected <= rs[i].got
      && rs[i].got >= 0
      && rs[i].missing == rs[i].got - rs[i].expected
      && (rs[i].status.Gap? <==> rs[i].missing > 0)
      && (rs[i].status.First? <==> i == 0)
      && (i == 0 ==> rs[i].missing == 0)
      && (i > 0 ==> rs[i].expected == rs[i - 1].got + 1)
  }

  lemma ChainExtends(rs: seq<Result>, r: Result)
    requires Chained(rs) && r.expected <= r.got && r.got >= 0 && r.missing == r.got - r.expected
    requires (r.status.Gap? <==> r.missing > 0) && (r.status.First? <==> rs == [])
    requires if rs == [] then r.missing == 0 else r.expected == rs[|rs| - 1].got + 1
    ensures Chained(rs + [r])
  {
  }

  lemma NoRegressionPrefix(rs: seq<Result>, r: Result)
    requires NoRegression(rs + [r])
    ensures NoRegression(rs) && !r.status.Regression?
  {
    assert (rs + [r])[|rs|] == r;
    assert forall i :: 0 <= i < |rs| ==> (rs + [r])[i] == rs[i];
  }

  /** The detector's memory of a stream is the last number its chain accepted. */
  ghost predicate Remembers(last: Last, k: Key, rs: seq<Result>) {
    && (k in last <==> rs != [])
    && (rs != [] ==> last[k] == rs[|rs| - 1].got && last[k] >= 0)
  }

  lemma ObserveKeepsChain(last: Last, tolerance: int, k': Key, n: int, k: Key, rs: seq<Result>)
    requires Chained(rs) && Remembers(last, k, rs)
    requires var r := Verdict(last, tolerance, k', n); k' == k && Accepts(r) ==> !r.status.Regression?
    ensures var r := Verdict(last, tolerance, k', n);
            var rs' := if k' == k && Accepts(r) then rs + [r] else rs;
            Chained(rs') && Remembers(Remember(last, tolerance, k', n), k, rs')
  {
    var r := Verdict(last, tolerance, k', n);
    if k' == k && Accepts(r) {
      ChainExtends(rs, r);
    }
  }

  lemma {:induction false} AcceptedChains(t: Trace, tolerance: int, k: Key)
    requires NoRegression(Accepted(t, tolerance, k))
    ensures Chained(Accepted(t, tolerance, k))
    ensures Remembers(LastAfter(t, tolerance), k, Accepted(t, tolerance, k))
  {
    match t
    case Fresh =>
    case Observed(prev, k', n) =>
      hide Chained, Remembers, Remember, Verdict, NoRegression;
      var last := LastAfter(prev, tolerance);
      var r := Verdict(last, tolerance, k', n);
      if k' == k && Accepts(r) {
        NoRegressionPrefix(Accepted(prev, tolerance, k), r);
      }
      AcceptedChains(prev, tolerance, k);
      ObserveKeepsChain(last, tolerance, k', n, k, Accepted(prev, tolerance, k));
    case Reset(prev, k') => if k' != k { AcceptedChains(prev, tolerance, k); }
    case ResetVenue(prev, v) => if v != k.venue { AcceptedChains(prev, tolerance, k); }
  }

  lemma {:induction false} ChainCounts(rs: seq<Result>)
    requires Chained(rs) && rs != []
    ensures rs[|rs| - 1].got - rs[0].got == |rs| - 1 + TotalMissing(rs)
    ensures forall i :: 0 <= i < |rs| ==> rs[i].got <= rs[|rs| - 1].got
  {
    var init := rs[..|rs| - 1];
    if init != [] {
      assert Chained(init);
      ChainCounts(init);
    }
  }

  lemma {:induction false} ChainOrdered(rs: seq<Result>, i: nat, j: nat)
    requires Chained(rs) && i < j < |rs|
    ensures rs[i].got < rs[j].expected
  {
    if i + 1 < j {
      ChainOrdered(rs, i, j - 1);
    }
  }

  lemma {:induction false} ChainCovers(rs: seq<Result>, n: int) returns (i: nat)
    requires Chained(rs) && rs != [] && rs[0].got <= n <= rs[|rs| - 1].got
    ensures i < |rs| && Covers(rs[i], n)
  {
    i := |rs| - 1;
    if n < rs[i].expected {
      assert i > 0;
      assert Chained(rs[..i]);
      i := ChainCovers(rs[..i], n);
    }
  }

  /** The verdicts tile [first, last]: accepted numbers strictly increase, and every
      number of the range is accounted for by exactly one verdict. */
  ghost predicate Tiles(rs: seq<Result>)
    requires rs != []
  {
    && (forall i, j :: 0 <= i < j < |rs| ==> rs[i].got < rs[j].got)
    && (forall n :: Accounted(rs, n) <==> rs[0].got <= n <= rs[|rs| - 1].got)
    && (forall i, j, n :: 0 <= i < |rs| && 0 <= j < |rs| && Covers(rs[i], n) && Covers(rs[j], n) ==> i == j)
  }

  lemma ChainTiles(rs: seq<Result>)
    requires Chained(rs) && rs != []
    ensures Tiles(rs)
  {
    forall i, j | 0 <= i < j < |rs| ensures rs[i].got < rs[j].expected <= rs[j].got { ChainOrdered(rs, i, j); }
    forall n ensures Accounted(rs, n) <==> rs[0].got <= n <= rs[|rs| - 1].got {
      if rs[0].got <= n <= rs[|rs| - 1].got {
        var i := ChainCovers(rs, n);
      }
      if Accounted(rs, n) {
        var i :| 0 <= i < |rs| && Covers(rs[i], n);
        ChainCounts(rs);
        if i > 0 { ChainOrdered(rs, 0, i); }
      }
    }
  }

  /** On any regression-free stretch of one stream, whatever other streams do, the
      accepted numbers and the numbers reported missing tile [first, last], so the
      distance covered is what was accepted plus what was reported missing. */
  lemma AcceptedTilesRange(t: Trace, tolerance: int, k: Key)
    requires var rs := Accepted(t, tolerance, k); rs != [] && NoRegression(rs)
    ensures var rs := Accepted(t, tolerance, k);
            Tiles(rs) && rs[|rs| - 1].got - rs[0].got == |rs| - 1 + TotalMissing(rs)
  {
    hide *;
    AcceptedChains(t, tolerance, k);
    ChainTiles(Accepted(t, tolerance, k));
    ChainCounts(Accepted(t, tolerance, k));
  }

  /** From the first number on, a duplicate or regression verdict means exactly that
      the number was accepted before or written off as missing: a late arrival does
      not fill its gap. */
  lemma DuplicateWasCovered(t: Trace, tolerance: int, k: Key, n: int)
    requires var rs := Accepted(t, tolerance, k); rs != [] && NoRegression(rs) && n >= rs[0].got
    ensures var status := Verdict(LastAfter(t, tolerance), tolerance, k, n).status;
            && (status.Duplicate? || status.Regression? <==> Accounted(Accepted(t, tolerance, k), n))
            && (status.OK? || status.Gap? <==> !Accounted(Accepted(t, tolerance, k), n))
  {
    hide Accepted, LastAfter;
    AcceptedChains(t, tolerance, k);
    AcceptedTilesRange(t, tolerance, k);
    assert Accounted(Accepted(t, tolerance, k), n) <==> n <= LastAfter(t, tolerance)[k];
  }

  /** What each verdict does to the stream: a duplicate leaves it expecting what it
      expected, everything else (a regression included, which is a new baseline) makes
      it expect the next number; and how far back separates the two. */
  lemma ExpectedNext(last: Last, tolerance: int, k: Key, n: nat, m: nat)
    ensures var status := Verdict(last, tolerance, k, n).status;
            var next := if status.Duplicate? then last[k] + 1 else n + 1;
            && (Verdict(Remember(last, tolerance, k, n), tolerance, k, m).status.OK? <==> m == next)
            && (k in last && n <= last[k] ==> (status.Duplicate? <==> last[k] <= n + tolerance))
  {
  }

  /** The part of a run that concerns one stream. */
  function Project(t: Trace, k: Key): Trace {
    match t
    case Fresh => Fresh
    case Observed(prev, k', n) => if k' == k then Observed(Project(prev, k), k, n) else Project(prev, k)
    case Reset(prev, k') => if k' == k then Reset(Project(prev, k), k) else Project(prev, k)
    case ResetVenue(prev, v) => if v == k.venue then Reset(Project(prev, k), k) else Project(prev, k)
  }

  /** Other streams never change a stream's verdicts. */
  lemma {:induction false} StreamsAreIndependent(t: Trace, tolerance: int, k: Key, n: int)
    ensures Verdict(LastAfter(t, tolerance), tolerance, k, n) ==
            Verdict(LastAfter(Project(t, k), tolerance), tolerance, k, n)
    ensures k in LastAfter(t, tolerance) <==> k in LastAfter(Project(t, k), tolerance)
    ensures k in LastAfter(t, tolerance) ==>
              LastAfter(t, tolerance)[k] == LastAfter(Project(t, k), tolerance)[k]
  {
    match t
    case Fresh =>
    case Observed(prev, _, _) => StreamsAreIndependent(prev, tolerance, k, t.number);
    case Reset(prev, _) => StreamsAreIndependent(prev, tolerance, k, n);
    case ResetVenue(prev, _) => StreamsAreIndependent(prev, tolerance, k, n);
  }

  // ---- What forgetting after each gap costs ----

  ghost predicate Rising(ns: seq<int>) {
    forall i, j :: 0 <= i < j < |ns| ==> ns[i] < ns[j]
  }

  ghost predicate NonNegative(ns: seq<int>) {
    forall i :: 0 <= i < |ns| ==> ns[i] >= 0
  }

  /** Position i skips at least one number. */
  predicate JumpsTo(ns: seq<int>, i: nat)
    requires i < |ns|
  {
    i > 0 && ns[i] > ns[i - 1] + 1
  }

  predicate JumpsTwice(ns: seq<int>, i: nat)
    requires i < |ns|
  {
    i > 1 && JumpsTo(ns, i - 1) && JumpsTo(ns, i)
  }

  ghost predicate NeverJumpsTwice(ns: seq<int>) {
    forall i :: 0 <= i < |ns| ==> !JumpsTwice(ns, i)
  }

  /** Whether the last number of a stream is reported as a gap when every report makes
      the detector forget the stream: only if the one before it was not. */
  predicate Reported(ns: seq<int>) {
    ns != [] && JumpsTo(ns, |ns| - 1) && !Reported(ns[..|ns| - 1])
  }

  function Skipped(ns: seq<int>): int {
    if |ns| < 2 then 0 else ns[|ns| - 1] - ns[|ns| - 2] - 1
  }

  /** Every number a rising stream left out between its first and its last. */
  function LeftOut(ns: seq<int>): int {
    if ns == [] then 0 else ns[|ns| - 1] - ns[0] + 1 - |ns|
  }

  /** What the reports add up to when each one forgets the stream. */
  function ReportedMissing(ns: seq<int>): int {
    if ns == [] then 0
    else ReportedMissing(ns[..|ns| - 1]) + if Reported(ns) then Skipped(ns) else 0
  }

  /** How many numbers skip some. */
  function Jumps(ns: seq<int>): nat {
    if ns == [] then 0 else Jumps(ns[..|ns| - 1]) + if JumpsTo(ns, |ns| - 1) then 1 else 0
  }

  /** How many of them are reported when every report forgets the stream. */
  function Reports(ns: seq<int>): nat {
    if ns == [] then 0 else Reports(ns[..|ns| - 1]) + if Reported(ns) then 1 else 0
  }

  lemma RisingPrefix(ns: seq<int>)
    requires Rising(ns) && ns != []
    ensures Rising(ns[..|ns| - 1]) && Skipped(ns) >= 0
    ensures LeftOut(ns) == LeftOut(ns[..|ns| - 1]) + Skipped(ns)
    ensures Skipped(ns) > 0 <==> JumpsTo(ns, |ns| - 1)
  {
  }

  lemma RisingAppend(ns: seq<int>, n: int)
    requires Rising(ns + [n]) && NonNegative(ns + [n])
    ensures Rising(ns) && NonNegative(ns) && n >= 0 && (ns != [] ==> ns[|ns| - 1] < n)
    ensures LeftOut(ns + [n]) == LeftOut(ns) + Skipped(ns + [n])
  {
    var all := ns + [n];
    assert all[|ns|] == n && forall i :: 0 <= i < |ns| ==> all[i] == ns[i];
  }

  lemma JumpsTwicePrefix(ns: seq<int>)
    requires ns != []
    ensures NeverJumpsTwice(ns) <==> NeverJumpsTwice(ns[..|ns| - 1]) && !JumpsTwice(ns, |ns| - 1)
  {
    var n := |ns| - 1;
    assert forall i :: 0 <= i < n ==> JumpsTwice(ns[..n], i) == JumpsTwice(ns, i);
  }

  /** Forgetting never reports too much, and reports everything exactly when no two
      consecutive numbers both skip some. */
  lemma {:induction false} ForgettingUndercounts(ns: seq<int>)
    requires Rising(ns)
    ensures 0 <= ReportedMissing(ns) <= LeftOut(ns)
    ensures ReportedMissing(ns) == LeftOut(ns) <==> NeverJumpsTwice(ns)
  {
    if ns != [] {
      hide NeverJumpsTwice, Rising, LeftOut;
      var init := ns[..|ns| - 1];
      RisingPrefix(ns);
      ForgettingUndercounts(init);
      JumpsTwicePrefix(ns);
      if |ns| > 1 {
        ReportedAfterJump(init);
      }
    }
  }

  /** A number that skips some and is not itself reported follows one that is. */
  lemma ReportedAfterJump(ns: seq<int>)
    requires ns != [] && Rising(ns)
    ensures !Reported(ns) && JumpsTo(ns, |ns| - 1) ==> !NeverJumpsTwice(ns)
    ensures Reported(ns) ==> JumpsTo(ns, |ns| - 1)
  {
    var n := |ns| - 1;
    if !Reported(ns) && JumpsTo(ns, n) {
      assert Reported(ns[..n]);
      assert JumpsTwice(ns, n);
    }
  }

  ghost predicate NonDecreasing(ns: seq<int>) {
    forall i, j :: 0 <= i < j < |ns| ==> ns[i] <= ns[j]
  }

  /** One stream's observations in a row. */
  function SettleAll(onResync: OnResync, last: Last, tolerance: int, k: Key, ns: seq<int>): Last {
    if ns == [] then last
    else Settle(onResync, SettleAll(onResync, last, tolerance, k, ns[..|ns| - 1]), tolerance, k, ns[|ns| - 1])
  }

  /** What is remembered of a stream whose numbers never fall. */
  lemma {:induction false} SettledNumber(onResync: OnResync, last: Last, tolerance: int, k: Key, ns: seq<int>)
    requires tolerance >= 0 && k !in last && NonDecreasing(ns) && NonNegative(ns)
    ensures var after := SettleAll(onResync, last, tolerance, k, ns);
            && (k in after <==> ns != [] && !(onResync.ForgetStream? && Reported(ns)))
            && (k in after ==> after[k] == ns[|ns| - 1])
  {
    if ns != [] {
      var init := ns[..|ns| - 1];
      assert NonDecreasing(init) && NonNegative(init);
      SettledNumber(onResync, last, tolerance, k, init);
    }
  }
}
