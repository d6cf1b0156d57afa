/** A reconnect that does not wait for the queue: what the stale updates still queued
    when the detector is cleared do to the session that follows. */
module BinanceReconnect {
  import opened Events
  import opened Gap
  import opened BinanceSequence

  // ---- A queue's numbers ----

  /** The dense numbers a queue holds of one symbol. */
  function NumbersFor(queue: seq<Item>, sym: string): seq<int> {
    if queue == [] then []
    else
      var n := |queue| - 1;
      NumbersFor(queue[..n], sym) + NumberFor(queue[n], sym)
  }

  ghost predicate OthersElsewhere(queue: seq<Item>) {
    forall i :: 0 <= i < |queue| ==> queue[i].Other? ==> !IsDepthKey(queue[i].key)
  }

  lemma NoneQueuedSplit(queue: seq<Item>, sym: string)
    requires queue != []
    ensures var n := |queue| - 1;
            NoneQueued(queue, sym) <==> NoneQueued(queue[..n], sym) && queue[n].Key() != DepthKey(sym)
  {
    var init := queue[..|queue| - 1];
    assert forall i :: 0 <= i < |init| ==> init[i] == queue[i];
  }

  lemma {:induction false} NumbersForMembers(queue: seq<Item>, sym: string)
    requires OthersElsewhere(queue)
    ensures NumbersFor(queue, sym) == [] <==> NoneQueued(queue, sym)
  {
    if queue != [] {
      hide NoneQueued;
      var n := |queue| - 1;
      assert forall i :: 0 <= i < n ==> queue[..n][i] == queue[i];
      NumbersForMembers(queue[..n], sym);
      NoneQueuedSplit(queue, sym);
      assert NumberFor(queue[n], sym) == [] <==> queue[n].Key() != DepthKey(sym);
    }
  }

  lemma LinkedPrefix(delivered: map<string, Cursor>, queue: seq<Item>)
    requires Linked(delivered, queue) && queue != []
    ensures Linked(delivered, queue[..|queue| - 1])
  {
    hide GoodItem, Drained;
    var init := queue[..|queue| - 1];
    forall i | 0 <= i < |init|
      ensures GoodItem(init[i]) && (init[i].Depth? ==> init[i].prior == Drained(delivered, init[..i], init[i].symbol))
    {
      assert init[i] == queue[i] && init[..i] == queue[..i];
    }
  }

  lemma NonDecreasingAppend(ns: seq<int>, n: int)
    requires NonDecreasing(ns) && NonNegative(ns) && n >= 0 && (ns != [] ==> ns[|ns| - 1] <= n)
    ensures NonDecreasing(ns + [n]) && NonNegative(ns + [n])
  {
  }

  lemma LastIsNext(delivered: map<string, Cursor>, queue: seq<Item>)
    requires Linked(delivered, queue) && queue != [] && queue[|queue| - 1].Depth?
    ensures var n, item := |queue| - 1, queue[|queue| - 1];
            && item.prior == Drained(delivered, queue[..n], item.symbol)
            && item.after.dense >= 0
            && (item.prior.Some? ==> item.prior.value.dense <= item.after.dense)
  {
    hide Drained;
    assert GoodItem(queue[|queue| - 1]);
  }

  lemma NumbersForLast(queue: seq<Item>, sym: string)
    requires queue != []
    ensures NumbersFor(queue, sym) == NumbersFor(queue[..|queue| - 1], sym) + NumberFor(queue[|queue| - 1], sym)
  {
    hide NumberFor;
  }

  /** The queued numbers of a symbol never fall. */
  lemma {:induction false} QueuedNumbersNeverFall(delivered: map<string, Cursor>, queue: seq<Item>, sym: string)
    requires Linked(delivered, queue)
    ensures var ns, c := NumbersFor(queue, sym), Drained(delivered, queue, sym);
            && NonDecreasing(ns) && NonNegative(ns)
            && (ns != [] ==> c.Some? && c.value.dense == ns[|ns| - 1])
  {
    if queue != [] {
      hide Linked, NonDecreasing, NonNegative, GoodItem, NumbersFor;
      var n := |queue| - 1;
      var init := NumbersFor(queue[..n], sym);
      LinkedPrefix(delivered, queue);
      QueuedNumbersNeverFall(delivered, queue[..n], sym);
      NumbersForLast(queue, sym);
      if queue[n].Depth? && queue[n].symbol == sym {
        LastIsNext(delivered, queue);
        NonDecreasingAppend(init, queue[n].after.dense);
      } else {
        assert init + [] == init;
      }
    }
  }

  ghost predicate AgreeOn(a: Last, b: Last, k: Key) {
    (k in a <==> k in b) && (k in a ==> a[k] == b[k])
  }

  lemma SettleElsewhere(onResync: OnResync, last: Last, tolerance: int, k: Key, n: int, k': Key)
    requires k != k'
    ensures AgreeOn(Settle(onResync, last, tolerance, k', n), last, k)
  {
  }

  lemma SettleAgrees(onResync: OnResync, a: Last, b: Last, tolerance: int, k: Key, n: int)
    requires AgreeOn(a, b, k)
    ensures AgreeOn(Settle(onResync, a, tolerance, k, n), Settle(onResync, b, tolerance, k, n), k)
  {
  }

  /** What one dequeued item adds to the numbers of a symbol. */
  function NumberFor(item: Item, sym: string): seq<int> {
    if item.Depth? && item.symbol == sym then [item.after.dense] else []
  }

  lemma HeadSettles(cfg: Config, t: State, last: Last, ns: seq<int>, sym: string)
    requires t.queue != [] && (t.queue[0].Other? ==> !IsDepthKey(t.queue[0].key))
    requires AgreeOn(t.last, SettleAll(cfg.onResync, last, cfg.tolerance, DepthKey(sym), ns), DepthKey(sym))
    ensures var all := ns + NumberFor(t.queue[0], sym);
            AgreeOn(Next(cfg, t, Dequeue).last, SettleAll(cfg.onResync, last, cfg.tolerance, DepthKey(sym), all),
                    DepthKey(sym))
    ensures Next(cfg, t, Dequeue).queue == t.queue[1..]
  {
    hide AgreeOn, Settle, Verdict, Recorded;
    var k, item := DepthKey(sym), t.queue[0];
    var settled := SettleAll(cfg.onResync, last, cfg.tolerance, k, ns);
    assert Next(cfg, t, Dequeue).last == Settle(cfg.onResync, t.last, cfg.tolerance, item.Key(), item.Number());
    if item.Depth? && item.symbol == sym {
      SettleAgrees(cfg.onResync, t.last, settled, cfg.tolerance, k, item.Number());
      assert (ns + [item.after.dense])[..|ns|] == ns;
    } else {
      assert item.Key() != k;
      SettleElsewhere(cfg.onResync, t.last, cfg.tolerance, k, item.Number(), item.Key());
      assert ns + [] == ns;
      AgreeTrans(Next(cfg, t, Dequeue).last, t.last, settled, k);
    }
  }

  lemma AgreeTrans(a: Last, b: Last, c: Last, k: Key)
    requires AgreeOn(a, b, k) && AgreeOn(b, c, k)
    ensures AgreeOn(a, c, k)
  {
  }

  // ---- Runs in which a reconnect need not wait for the queue ----

  ghost predicate Happens(cfg: Config, run: Run) {
    match run
    case Begin => true
    case Then(prev, step) => Happens(cfg, prev) && CanHappen(StateAfter(cfg, prev), step)
  }

  /** What was queued when the detector was last cleared. */
  ghost function Stale(cfg: Config, run: Run): seq<Item> {
    match run
    case Begin => []
    case Then(prev, step) => if step.ResetDetector? then StateAfter(cfg, prev).queue else Stale(cfg, prev)
  }

  /** What has been enqueued since. */
  ghost function Added(cfg: Config, run: Run): seq<Item> {
    match run
    case Begin => []
    case Then(prev, step) =>
      if step.ResetDetector? then []
      else if step.Decode? || step.Enqueue? then
        Added(cfg, prev) + Next(cfg, StateAfter(cfg, prev), step).queue[|StateAfter(cfg, prev).queue|..]
      else Added(cfg, prev)
  }

  /** What has been dequeued since. */
  ghost function Taken(cfg: Config, run: Run): seq<Item> {
    match run
    case Begin => []
    case Then(prev, step) =>
      if step.ResetDetector? then []
      else if step.Dequeue? && StateAfter(cfg, prev).queue != [] then
        Taken(cfg, prev) + [StateAfter(cfg, prev).queue[0]]
      else Taken(cfg, prev)
  }

  lemma QueueStep(cfg: Config, s: State, step: Step)
    ensures var q := Next(cfg, s, step).queue;
            if step.Dequeue? && s.queue != [] then [s.queue[0]] + q == s.queue
            else if step.Decode? || step.Enqueue? then |s.queue| <= |q| && s.queue + q[|s.queue|..] == q
            else q == s.queue
  {
    hide Verdict, Settle, Advance, Recorded;
  }

  lemma {:induction false} QueueIsTheRest(cfg: Config, run: Run)
    ensures Taken(cfg, run) + StateAfter(cfg, run).queue == Stale(cfg, run) + Added(cfg, run)
  {
    match run
    case Begin =>
    case Then(prev, step) =>
      hide Next, StateAfter;
      QueueIsTheRest(cfg, prev);
      StateAfterThen(cfg, prev, step);
      var s := StateAfter(cfg, prev);
      QueueStep(cfg, s, step);
      var taken, q := Taken(cfg, prev), Next(cfg, s, step).queue;
      if step.ResetDetector? {
        assert [] + q == q + [];
      } else if step.Dequeue? && s.queue != [] {
        Regroup(taken, [s.queue[0]], q);
      } else if step.Decode? || step.Enqueue? {
        Regroup(taken, s.queue, q[|s.queue|..]);
        Regroup(Stale(cfg, prev), Added(cfg, prev), q[|s.queue|..]);
      }
  }

  lemma Regroup(xs: seq<Item>, ys: seq<Item>, zs: seq<Item>)
    ensures xs + (ys + zs) == (xs + ys) + zs
  {
  }

  lemma {:induction false} NumbersForConcat(xs: seq<Item>, ys: seq<Item>, sym: string)
    ensures NumbersFor(xs + ys, sym) == NumbersFor(xs, sym) + NumbersFor(ys, sym)
  {
    hide NumberFor;
    if ys == [] {
      assert xs + ys == xs;
    } else {
      var n := |ys| - 1;
      NumbersForConcat(xs, ys[..n], sym);
      assert (xs + ys)[..|xs| + n] == xs + ys[..n];
    }
  }

  lemma NumbersForOne(item: Item, sym: string)
    ensures NumbersFor([item], sym) == NumberFor(item, sym)
  {
    assert [item][..0] == [];
  }

  /** What the detector remembers of a symbol is what it took of it since it was last
      cleared, in every run: no queue need have drained. */
  ghost predicate RemembersTaken(cfg: Config, run: Run, sym: string) {
    AgreeOn(StateAfter(cfg, run).last,
            SettleAll(cfg.onResync, map[], cfg.tolerance, DepthKey(sym), NumbersFor(Taken(cfg, run), sym)),
            DepthKey(sym))
  }

  lemma StepElsewhere(cfg: Config, s: State, step: Step, sym: string)
    requires CanHappen(s, step) && !step.ResetDetector? && !(step.Dequeue? && s.queue != [])
    ensures AgreeOn(Next(cfg, s, step).last, s.last, DepthKey(sym))
  {
    hide Verdict, Settle, Advance, Recorded;
  }

  lemma ClearedMemory(cfg: Config, s: State, sym: string)
    ensures AgreeOn(Next(cfg, s, ResetDetector).last,
                    SettleAll(cfg.onResync, map[], cfg.tolerance, DepthKey(sym), NumbersFor([], sym)), DepthKey(sym))
  {
  }

  lemma {:induction false} QueuedElsewhere(cfg: Config, run: Run)
    requires Happens(cfg, run)
    ensures OthersElsewhere(StateAfter(cfg, run).queue)
  {
    match run
    case Begin =>
    case Then(prev, step) =>
      hide Next, OthersElsewhere, CanHappen;
      QueuedElsewhere(cfg, prev);
      StepQueuesElsewhere(cfg, StateAfter(cfg, prev), step);
  }

  lemma StepQueuesElsewhere(cfg: Config, s: State, step: Step)
    requires CanHappen(s, step) && OthersElsewhere(s.queue)
    ensures OthersElsewhere(Next(cfg, s, step).queue)
  {
    hide Verdict, Settle, Advance, Recorded, ForgetVenue;
  }

  lemma {:induction false} MemoryIsTaken(cfg: Config, run: Run, sym: string)
    requires Happens(cfg, run)
    ensures RemembersTaken(cfg, run, sym)
  {
    hide Next, AgreeOn, SettleAll, NumbersFor, CanHappen, OthersElsewhere;
    match run
    case Begin => NothingTaken(cfg, sym);
    case Then(prev, step) =>
      var s, k, taken := StateAfter(cfg, prev), DepthKey(sym), Taken(cfg, prev);
      MemoryIsTaken(cfg, prev, sym);
      if step.ResetDetector? {
        ClearedMemory(cfg, s, sym);
      } else if step.Dequeue? && s.queue != [] {
        QueuedElsewhere(cfg, prev);
        HeadElsewhere(s.queue);
        NumbersForConcat(taken, [s.queue[0]], sym);
        NumbersForOne(s.queue[0], sym);
        HeadSettles(cfg, s, map[], NumbersFor(taken, sym), sym);
      } else {
        StepElsewhere(cfg, s, step, sym);
        AgreeTrans(StateAfter(cfg, run).last, s.last,
                   SettleAll(cfg.onResync, map[], cfg.tolerance, k, NumbersFor(taken, sym)), k);
      }
  }

  lemma HeadElsewhere(queue: seq<Item>)
    requires OthersElsewhere(queue) && queue != []
    ensures queue[0].Other? ==> !IsDepthKey(queue[0].key)
  {
  }

  lemma NothingTaken(cfg: Config, sym: string)
    ensures RemembersTaken(cfg, Begin, sym)
  {
  }

  /** The numbers of a new session never fall, and its cursor is never behind them. */
  ghost predicate SessionRises(cfg: Config, run: Run, sym: string) {
    var ns, s := NumbersFor(Added(cfg, run), sym), StateAfter(cfg, run);
    && NonDecreasing(ns) && NonNegative(ns)
    && (sym in s.cursors ==> s.cursors[sym].dense >= 0)
    && (ns != [] ==> sym in s.cursors && ns[|ns| - 1] <= s.cursors[sym].dense)
    && (s.resetting ==> ns == [])
  }

  lemma DecodeAdds(cfg: Config, s: State, step: Step, sym: string)
    requires step.Decode? && (sym in s.cursors ==> s.cursors[sym].dense >= 0)
    ensures var t := Next(cfg, s, step);
            var more := t.queue[|s.queue|..];
            && t.resetting == s.resetting
            && (sym in s.cursors ==> sym in t.cursors && t.cursors[sym].dense >= s.cursors[sym].dense)
            && (sym in t.cursors ==> t.cursors[sym].dense >= 0)
            && (more == [] || (more == [more[0]] && more[0].Depth? && more[0].symbol == step.symbol
                               && step.symbol in t.cursors && more[0].after == t.cursors[step.symbol]))
  {
  }

  lemma {:induction false} NewSessionRises(cfg: Config, run: Run, sym: string)
    requires Happens(cfg, run)
    ensures SessionRises(cfg, run, sym)
  {
    match run
    case Begin =>
    case Then(prev, step) =>
      hide SessionRises, CanHappen, StateAfter;
      NewSessionRises(cfg, prev, sym);
      if step.Decode? {
        DecodeRises(cfg, prev, step, sym);
      } else if step.Enqueue? {
        EnqueueRises(cfg, prev, step, sym);
      } else {
        ResetRises(cfg, prev, step, sym);
      }
  }

  lemma EnqueueRises(cfg: Config, prev: Run, step: Step, sym: string)
    requires step.Enqueue? && SessionRises(cfg, prev, sym)
    ensures SessionRises(cfg, Then(prev, step), sym)
  {
    hide NonDecreasing, NonNegative, NumbersFor, StateAfter;
    var s, other := StateAfter(cfg, prev), Other(step.key, step.number);
    StateAfterThen(cfg, prev, step);
    assert Next(cfg, s, step).queue[|s.queue|..] == [other];
    NumbersForConcat(Added(cfg, prev), [other], sym);
    NumbersForOne(other, sym);
    assert NumbersFor(Added(cfg, prev), sym) + [] == NumbersFor(Added(cfg, prev), sym);
  }

  lemma ResetRises(cfg: Config, prev: Run, step: Step, sym: string)
    requires !step.Decode? && !step.Enqueue? && SessionRises(cfg, prev, sym) && CanHappen(StateAfter(cfg, prev), step)
    ensures SessionRises(cfg, Then(prev, step), sym)
  {
    hide NonDecreasing, NonNegative, StateAfter, Verdict, Settle, Recorded, ForgetVenue;
    StateAfterThen(cfg, prev, step);
    NothingRises();
  }

  lemma NothingRises()
    ensures NonDecreasing([]) && NonNegative([])
  {
  }

  lemma AddedOnDecode(cfg: Config, prev: Run, step: Step)
    requires step.Decode?
    ensures |StateAfter(cfg, prev).queue| <= |Next(cfg, StateAfter(cfg, prev), step).queue|
    ensures Added(cfg, Then(prev, step)) ==
            Added(cfg, prev) + Next(cfg, StateAfter(cfg, prev), step).queue[|StateAfter(cfg, prev).queue|..]
  {
    hide Next, StateAfter;
    QueueStep(cfg, StateAfter(cfg, prev), step);
  }

  lemma DecodeRises(cfg: Config, prev: Run, step: Step, sym: string)
    requires step.Decode? && SessionRises(cfg, prev, sym) && CanHappen(StateAfter(cfg, prev), step)
    ensures SessionRises(cfg, Then(prev, step), sym)
  {
    hide NonDecreasing, NonNegative, Next, NumbersFor, StateAfter, Added;
    var s, ns := StateAfter(cfg, prev), NumbersFor(Added(cfg, prev), sym);
    var t := Next(cfg, s, step);
    StateAfterThen(cfg, prev, step);
    QueueStep(cfg, s, step);
    DecodeAdds(cfg, s, step, sym);
    var more := t.queue[|s.queue|..];
    assert Added(cfg, Then(prev, step)) == Added(cfg, prev) + more by { AddedOnDecode(cfg, prev, step); }
    NumbersForConcat(Added(cfg, prev), more, sym);
    if more == [] {
      assert Added(cfg, prev) + more == Added(cfg, prev);
    } else {
      NumbersForOne(more[0], sym);
      if step.symbol == sym {
        NonDecreasingAppend(ns, more[0].after.dense);
      } else {
        assert ns + [] == ns;
      }
    }
  }

  /** A run that goes on from a reconnect at `base`, without another. */
  ghost predicate Continues(base: Run, run: Run) {
    run == Then(base, ResetDetector)
    || (run.Then? && !run.step.ResetDetector? && Continues(base, run.prev))
  }

  lemma {:induction false} StaleOfBase(cfg: Config, base: Run, run: Run)
    requires Continues(base, run)
    ensures Stale(cfg, run) == StateAfter(cfg, base).queue
  {
    if run != Then(base, ResetDetector) {
      StaleOfBase(cfg, base, run.prev);
    }
  }

  /** The new session's numbers dequeued so far, once the stale ones are gone. */
  ghost function Seen(cfg: Config, run: Run, sym: string): seq<int>
    requires |Stale(cfg, run)| <= |Taken(cfg, run)|
  {
    NumbersFor(Taken(cfg, run)[|Stale(cfg, run)|..], sym)
  }

  /** Once the stale updates are gone, the next one of the new session is judged by the
      stale numbers followed by the new ones, none of which is above its own. */
  lemma NewHead(cfg: Config, run: Run)
    requires Happens(cfg, run) && |Stale(cfg, run)| <= |Taken(cfg, run)|
    requires var q := StateAfter(cfg, run).queue; q != [] && q[0].Depth?
    ensures var item := StateAfter(cfg, run).queue[0];
            var seen, m := Seen(cfg, run, item.symbol), item.after.dense;
            && NumbersFor(Taken(cfg, run), item.symbol) == NumbersFor(Stale(cfg, run), item.symbol) + seen
            && NonDecreasing(seen + [m]) && NonNegative(seen + [m])
  {
    hide StateAfter, Taken, Stale, Added, NumbersFor, NonDecreasing, NonNegative;
    var stale, taken, added, q := Stale(cfg, run), Taken(cfg, run), Added(cfg, run), StateAfter(cfg, run).queue;
    var item := q[0];
    var sym, latest := item.symbol, taken[|stale|..];
    QueueIsTheRest(cfg, run);
    NewSessionRises(cfg, run, sym);
    assert taken == (taken + q)[..|taken|] == (stale + added)[..|taken|];
    assert taken == stale + latest by { assert taken[..|stale|] == stale; }
    assert added == (stale + added)[|stale|..] == (taken + q)[|stale|..] == latest + q;
    NumbersForConcat(stale, latest, sym);
    NumbersForConcat(latest, q, sym);
    assert q == [item] + q[1..];
    NumbersForConcat([item], q[1..], sym);
    NumbersForOne(item, sym);
    var seen, rest := NumbersFor(latest, sym), NumbersFor(q[1..], sym);
    assert NumbersFor(added, sym) == (seen + [item.after.dense]) + rest;
    RisesPrefix(seen + [item.after.dense], rest);
  }

  lemma RisesPrefix(xs: seq<int>, ys: seq<int>)
    requires NonDecreasing(xs + ys) && NonNegative(xs + ys)
    ensures NonDecreasing(xs) && NonNegative(xs)
  {
    assert forall i :: 0 <= i < |xs| ==> (xs + ys)[i] == xs[i];
  }

  lemma {:induction false} SettleAllConcat(
      onResync: OnResync, last: Last, tolerance: int, k: Key, xs: seq<int>, ys: seq<int>)
    ensures SettleAll(onResync, last, tolerance, k, xs + ys) ==
            SettleAll(onResync, SettleAll(onResync, last, tolerance, k, xs), tolerance, k, ys)
  {
    hide Settle;
    if ys == [] {
      assert xs + ys == xs;
    } else {
      var n := |ys| - 1;
      SettleAllConcat(onResync, last, tolerance, k, xs, ys[..n]);
      assert (xs + ys)[..|xs| + n] == xs + ys[..n];
    }
  }

  /** Duplicates leave no mark. */
  lemma {:induction false} DuplicatesLeaveNoMark(onResync: OnResync, last: Last, tolerance: int, k: Key, ns: seq<int>)
    requires k in last && NonNegative(ns)
    requires forall i :: 0 <= i < |ns| ==> last[k] - tolerance <= ns[i] <= last[k]
    ensures SettleAll(onResync, last, tolerance, k, ns) == last
  {
    if ns != [] {
      var init := ns[..|ns| - 1];
      assert NonNegative(init) && forall i :: 0 <= i < |init| ==> init[i] == ns[i];
      DuplicatesLeaveNoMark(onResync, last, tolerance, k, init);
    }
  }

  /** The verdict a number gets from the one remembered. */
  ghost predicate JudgedFrom(r: Result, remembered: int, tolerance: int, n: int) {
    && (r.status.OK? <==> n == remembered + 1)
    && (r.status.Gap? <==> n > remembered + 1)
    && (r.status.Gap? ==> r.missing == n - remembered - 1)
    && (r.status.Duplicate? <==> remembered - tolerance <= n <= remembered)
    && (r.status.Regression? <==> n < remembered - tolerance && n <= remembered)
  }

  lemma JudgedByMemory(cfg: Config, run: Run, memory: Last)
    requires var q := StateAfter(cfg, run).queue; q != [] && q[0].Depth? && q[0].after.dense >= 0
    requires AgreeOn(StateAfter(cfg, run).last, memory, DepthKey(StateAfter(cfg, run).queue[0].symbol))
    ensures var item, r := StateAfter(cfg, run).queue[0], HeadVerdict(cfg, StateAfter(cfg, run));
            && (r.status.First? <==> DepthKey(item.symbol) !in memory)
            && (DepthKey(item.symbol) in memory ==>
                  JudgedFrom(r, memory[DepthKey(item.symbol)], cfg.tolerance, item.after.dense))
  {
  }

  /** What a reconnect leaves in the detector once the stale updates are gone: their last
      number, unless there were none or (with the wired hook) that one was itself
      reported as a gap and forgotten. */
  lemma StaleMemory(cfg: Config, base: Run, sym: string)
    requires cfg.tolerance >= 0 && Possible(cfg, base)
    ensures var ns := NumbersFor(StateAfter(cfg, base).queue, sym);
            var after := SettleAll(cfg.onResync, map[], cfg.tolerance, DepthKey(sym), ns);
            && (DepthKey(sym) in after <==> ns != [] && !(cfg.onResync.ForgetStream? && Reported(ns)))
            && (DepthKey(sym) in after ==> after[DepthKey(sym)] == ns[|ns| - 1])
            && (ns == [] <==> NoneQueued(StateAfter(cfg, base).queue, sym))
  {
    hide StateAfter, Reported, Possible, SettleAll, NoneQueued, NonDecreasing, NonNegative, NumbersFor;
    var stale := StateAfter(cfg, base).queue;
    ReachableInv(cfg, base);
    QueuedNumbersNeverFall(StateAfter(cfg, base).delivered, stale, sym);
    assert OthersElsewhere(stale) by {
      assert forall i :: 0 <= i < |stale| ==> GoodItem(stale[i]);
    }
    NumbersForMembers(stale, sym);
    SettledNumber(cfg.onResync, map[], cfg.tolerance, DepthKey(sym), NumbersFor(stale, sym));
  }

  /** Reconnect from any reachable state without waiting for the queue; then let anything
      happen, in any order, short of another reconnect. The first update of a symbol that
      the new session delivers is First exactly when no update of that symbol was still
      queued at the reconnect (or, with the wired hook, the last one queued was itself
      reported as a gap and forgotten). Otherwise it is judged by the last stale number:
      a duplicate, and dropped, when at most the tolerance below it. */
  lemma FirstAfterReconnectIff(cfg: Config, base: Run, run: Run)
    requires cfg.tolerance >= 0 && Possible(cfg, base) && Continues(base, run) && Happens(cfg, run)
    requires |Stale(cfg, run)| <= |Taken(cfg, run)|
    requires var q := StateAfter(cfg, run).queue;
             q != [] && q[0].Depth? && Seen(cfg, run, q[0].symbol) == []
    ensures var s, stale := StateAfter(cfg, run), StateAfter(cfg, base).queue;
            var item, r, ns := s.queue[0], HeadVerdict(cfg, s), NumbersFor(stale, s.queue[0].symbol);
            && (ns == [] <==> NoneQueued(stale, item.symbol))
            && (r.status.First? <==> ns == [] || (cfg.onResync.ForgetStream? && Reported(ns)))
            && (!r.status.First? ==> JudgedFrom(r, ns[|ns| - 1], cfg.tolerance, item.after.dense))
  {
    hide StateAfter, Taken, Stale, NumbersFor, SettleAll, Reported, JudgedFrom, NonDecreasing, AgreeOn, NoneQueued;
    var item := StateAfter(cfg, run).queue[0];
    var ns := NumbersFor(StateAfter(cfg, base).queue, item.symbol);
    StaleOfBase(cfg, base, run);
    NewHead(cfg, run);
    assert ns + [] == ns;
    LastIsNonNegative([], item.after.dense);
    MemoryIsTaken(cfg, run, item.symbol);
    StaleMemory(cfg, base, item.symbol);
    JudgedByMemory(cfg, run, SettleAll(cfg.onResync, map[], cfg.tolerance, DepthKey(item.symbol), ns));
  }

  lemma LastIsNonNegative(ns: seq<int>, n: int)
    requires NonNegative(ns + [n])
    ensures n >= 0 && NonNegative(ns)
  {
    assert (ns + [n])[|ns|] == n && forall i :: 0 <= i < |ns| ==> (ns + [n])[i] == ns[i];
  }

  lemma AllAtMostLast(ns: seq<int>, n: int, bound: int)
    requires NonDecreasing(ns + [n]) && NonNegative(ns + [n]) && (ns != [] ==> ns[|ns| - 1] <= bound)
    ensures (ns != [] ==> ns[|ns| - 1] <= n) && forall i :: 0 <= i < |ns| ==> 0 <= ns[i] <= bound
  {
    var all := ns + [n];
    assert all[|ns|] == n && forall i :: 0 <= i < |ns| ==> all[i] == ns[i];
  }

  /** How much such a reconnect loses: with the last stale number p remembered and within
      the tolerance, every update of the new session numbered at most p is a duplicate,
      and dropped; the first one past it resumes the count there, reported as a gap of
      what lies between. */
  lemma LostUntilStaleNumber(cfg: Config, base: Run, run: Run)
    requires cfg.tolerance >= 0 && Possible(cfg, base) && Continues(base, run) && Happens(cfg, run)
    requires |Stale(cfg, run)| <= |Taken(cfg, run)|
    requires var q := StateAfter(cfg, run).queue; q != [] && q[0].Depth?
    requires var ns := NumbersFor(StateAfter(cfg, base).queue, StateAfter(cfg, run).queue[0].symbol);
             ns != [] && !(cfg.onResync.ForgetStream? && Reported(ns)) && ns[|ns| - 1] <= cfg.tolerance
    ensures var s := StateAfter(cfg, run);
            var item, r := s.queue[0], HeadVerdict(cfg, s);
            var ns, seen := NumbersFor(StateAfter(cfg, base).queue, item.symbol), Seen(cfg, run, item.symbol);
            var p, m := ns[|ns| - 1], item.after.dense;
            && (m <= p ==> r.status.Duplicate?)
            && (seen == [] || seen[|seen| - 1] <= p ==>
                  && (r.status.Duplicate? <==> m <= p)
                  && (r.status.OK? <==> m == p + 1)
                  && (r.status.Gap? <==> m > p + 1)
                  && (r.status.Gap? ==> r.missing == m - p - 1))
  {
    hide StateAfter, Taken, Stale, NumbersFor, SettleAll, Reported, NonDecreasing, NonNegative, AgreeOn, NoneQueued;
    var item := StateAfter(cfg, run).queue[0];
    var k, m := DepthKey(item.symbol), item.after.dense;
    var ns, seen := NumbersFor(StateAfter(cfg, base).queue, item.symbol), Seen(cfg, run, item.symbol);
    var p := ns[|ns| - 1];
    StaleOfBase(cfg, base, run);
    NewHead(cfg, run);
    LastIsNonNegative(seen, m);
    if seen == [] || seen[|seen| - 1] <= p || m <= p {
      AllAtMostLast(seen, m, if seen == [] then p else seen[|seen| - 1]);
      MemoryIsTaken(cfg, run, item.symbol);
      StaleMemory(cfg, base, item.symbol);
      var memory := SettleAll(cfg.onResync, map[], cfg.tolerance, k, ns);
      SettleAllConcat(cfg.onResync, map[], cfg.tolerance, k, ns, seen);
      DuplicatesLeaveNoMark(cfg.onResync, memory, cfg.tolerance, k, seen);
      JudgedByMemory(cfg, run, memory);
    }
  }

  // ---- Such a run ----

  /** A reconnect while an old update is still queued: the new session's first update
      is called a duplicate, and the pipeline drops duplicates. */
  lemma StaleQueueDropsFirstUpdate(cfg: Config, u: int)
    requires cfg.tolerance >= 1
    ensures var earlier := Then(Then(Begin, Decode("s", u, u, false)), Decode("s", u + 1, u + 1, false));
            var reconnected := Then(Then(Then(earlier, Dequeue), ResetDetector), ResetBooks);
            var renewed := Then(Then(reconnected, Decode("s", 1, 1, false)), Dequeue);
            && !Possible(cfg, reconnected)
            && StateAfter(cfg, renewed).queue == [Depth("s", 1, 1, None, None, Cursor(1, 0))]
            && HeadVerdict(cfg, StateAfter(cfg, renewed)).status.Duplicate?
  {
    hide StateAfter, Next, Reported, JudgedFrom;
    var r3 := Then(Then(Then(Begin, Decode("s", u, u, false)), Decode("s", u + 1, u + 1, false)), Dequeue);
    var r6 := Then(Then(Then(r3, ResetDetector), ResetBooks), Decode("s", 1, 1, false));
    var d1 := Depth("s", u + 1, u + 1, Some(Cursor(u, 0)), Some(Cursor(u, 0)), Cursor(u + 1, 1));
    OneStillQueued(cfg, u);
    OneNumber(d1);
    RenewedQueue(cfg, r3);
    TakenOnce(cfg, r3, d1);
    assert Happens(cfg, Then(r6, Dequeue)) by { RenewalHappens(cfg, r3); }
    assert Continues(r3, Then(r6, Dequeue)) by {
      assert Continues(r3, Then(r3, ResetDetector));
      assert Continues(r3, Then(Then(r3, ResetDetector), ResetBooks));
      assert Continues(r3, r6);
    }
    assert Seen(cfg, Then(r6, Dequeue), "s") == [] by { assert [d1][1..] == []; }
    FirstAfterReconnectIff(cfg, r3, Then(r6, Dequeue));
    assert JudgedFrom(HeadVerdict(cfg, StateAfter(cfg, Then(r6, Dequeue))), 1, cfg.tolerance, 0);
    DuplicateFrom(HeadVerdict(cfg, StateAfter(cfg, Then(r6, Dequeue))), cfg.tolerance);
    assert !Possible(cfg, Then(r3, ResetDetector));
  }

  lemma DuplicateFrom(r: Result, tolerance: int)
    requires tolerance >= 1 && JudgedFrom(r, 1, tolerance, 0)
    ensures r.status.Duplicate?
  {
  }

  /** A reconnect and the first update after it, then one dequeue. */
  lemma RenewedQueue(cfg: Config, base: Run)
    requires StateAfter(cfg, base).queue != []
    ensures var decoded := Then(Then(Then(base, ResetDetector), ResetBooks), Decode("s", 1, 1, false));
            var d2 := Depth("s", 1, 1, None, None, Cursor(1, 0));
            && StateAfter(cfg, decoded).queue == StateAfter(cfg, base).queue + [d2]
            && StateAfter(cfg, Then(decoded, Dequeue)).queue == StateAfter(cfg, base).queue[1..] + [d2]
  {
    hide StateAfter, Verdict, Settle, Recorded, ForgetVenue;
    var cleared := Then(base, ResetDetector);
    var emptied := Then(cleared, ResetBooks);
    var decoded := Then(emptied, Decode("s", 1, 1, false));
    StateAfterThen(cfg, base, ResetDetector);
    StateAfterThen(cfg, cleared, ResetBooks);
    StateAfterThen(cfg, emptied, Decode("s", 1, 1, false));
    StateAfterThen(cfg, decoded, Dequeue);
  }

  lemma RenewalHappens(cfg: Config, base: Run)
    requires Happens(cfg, base) && !StateAfter(cfg, base).resetting
    ensures Happens(cfg, Then(Then(Then(Then(base, ResetDetector), ResetBooks), Decode("s", 1, 1, false)), Dequeue))
  {
    hide StateAfter;
    var cleared := Then(base, ResetDetector);
    StateAfterThen(cfg, base, ResetDetector);
    StateAfterThen(cfg, cleared, ResetBooks);
    assert Happens(cfg, cleared) && Happens(cfg, Then(cleared, ResetBooks));
    assert Happens(cfg, Then(Then(cleared, ResetBooks), Decode("s", 1, 1, false)));
  }

  lemma TakenOnce(cfg: Config, base: Run, first: Item)
    requires StateAfter(cfg, base).queue == [first]
    ensures var run := Then(Then(Then(Then(base, ResetDetector), ResetBooks), Decode("s", 1, 1, false)), Dequeue);
            Taken(cfg, run) == [first] && Stale(cfg, run) == [first]
  {
    hide StateAfter;
    RenewedQueue(cfg, base);
    var cleared := Then(base, ResetDetector);
    var decoded := Then(Then(cleared, ResetBooks), Decode("s", 1, 1, false));
    assert Taken(cfg, Then(cleared, ResetBooks)) == [] && Stale(cfg, Then(cleared, ResetBooks)) == [first];
    assert Taken(cfg, decoded) == [] && Stale(cfg, decoded) == [first];
  }

  lemma OneNumber(item: Item)
    requires item.Depth?
    ensures NumbersFor([item], item.symbol) == [item.after.dense] && !Reported([item.after.dense])
    ensures NumbersFor([], item.symbol) == []
  {
    assert [item][..0] == [];
  }

  lemma OneStillQueued(cfg: Config, u: int)
    ensures var r3 := Then(Then(Then(Begin, Decode("s", u, u, false)), Decode("s", u + 1, u + 1, false)), Dequeue);
            && Possible(cfg, r3) && Happens(cfg, r3) && !StateAfter(cfg, r3).resetting
            && StateAfter(cfg, r3).queue ==
               [Depth("s", u + 1, u + 1, Some(Cursor(u, 0)), Some(Cursor(u, 0)), Cursor(u + 1, 1))]
  {
    hide StateAfter;
    var c0, c1, l0 := Cursor(u, 0), Cursor(u + 1, 1), Ledger(u, 0, 0, 0, 0, 0);
    var d0, d1 := Depth("s", u, u, None, None, c0), Depth("s", u + 1, u + 1, Some(c0), Some(c0), c1);
    var r1 := Then(Begin, Decode("s", u, u, false));
    var r2 := Then(r1, Decode("s", u + 1, u + 1, false));
    StartsAt(cfg);
    StepsTo(cfg, r1, State(map["s" := c0], [d0], map[], false, map["s" := c0], map[], map[], {}));
    StepsTo(cfg, r2, State(map["s" := c1], [d0, d1], map[], false, map["s" := c1], map[], map[], {}));
    StepsTo(cfg, Then(r2, Dequeue), State(map["s" := c1], [d1], map[DepthKey("s") := 0], false,
                                          map["s" := c1], map["s" := c0], map["s" := l0], {}));
    assert Possible(cfg, r1) && Happens(cfg, r1);
  }
}
