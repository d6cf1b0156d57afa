/** On-chain transfers are sequenced by block: the first transfer of each new highest
    block carries the block number, every other one is unsequenced. */
module Evm {
  import opened Events
  import opened Gap
  import IngestPipeline

  const NO_SEQUENCE := IngestPipeline.NO_SEQUENCE

  /** The outcomes of decoding one log that matter here. */
  datatype RawLog =
    | Skipped       // removed by a reorg, or not a transfer
    | Undecodable   // amount, block or index does not parse
    | Transfer(block: int, symbol: string)

  class Decoder {
    const chain: string
    var lastBlock: int

    constructor (chain: string)
      ensures this.chain == chain && lastBlock == 0
    {
      this.chain := chain;
      lastBlock := 0;
    }

    /** The sequence of the emitted event, if one is emitted. */
    method Decode(log: RawLog) returns (sequence: Option<int>)
      modifies this`lastBlock
      ensures sequence.Some? <==> log.Transfer?
      ensures sequence.Some? ==> sequence.value == SequenceOf(old(lastBlock), log.block)
      ensures lastBlock == if log.Transfer? then Max(old(lastBlock), log.block) else old(lastBlock)
    {
      if !log.Transfer? {
        return None;
      }
      var s := NO_SEQUENCE;
      if log.block > lastBlock {
        lastBlock := log.block;
        s := log.block;
      }
      return Some(s);
    }
  }

  function SequenceOf(lastBlock: int, block: int): int {
    if block > lastBlock then block else NO_SEQUENCE
  }

  // ---- Decode, queue, observe, reconnect: in any order, at any time ----

  datatype State = State(lastBlock: int, queue: seq<int>, last: Last)

  /** Reconnects reset the detector but not the decoder, and need not wait for the
      queue. Other streams may be observed in between, and a gap may make the detector
      forget the stream it was in. */
  datatype Step = Decode(block: int) | Observe | Reconnect | ObserveOther(key: Key, number: int)

  function ChainKey(chain: string): Key { Key(chain, "", "connection") }

  /** Every event of a connection-scoped chain, and no other event, is checked there. */
  lemma ChainKeyIff(cfg: IngestPipeline.Config, ev: IngestPipeline.Event, chain: string)
    requires chain in cfg.connectionScoped
    ensures IngestPipeline.SequenceKey(cfg, ev) == ChainKey(chain) <==> ev.venue == chain
  {
  }

  function Next(chain: string, tolerance: int, onResync: OnResync, s: State, step: Step): State {
    match step
    case Decode(b) => State(Max(s.lastBlock, b), s.queue + [SequenceOf(s.lastBlock, b)], s.last)
    case Observe =>
      if s.queue == [] then s
      else s.(queue := s.queue[1..], last := Settle(onResync, s.last, tolerance, ChainKey(chain), s.queue[0]))
    case Reconnect => s.(last := ForgetVenue(s.last, chain))
    case ObserveOther(k, n) => if k == ChainKey(chain) then s else s.(last := Settle(onResync, s.last, tolerance, k, n))
  }

  datatype Run = Begin | Then(prev: Run, step: Step)

  function StateAfter(chain: string, tolerance: int, onResync: OnResync, run: Run): State {
    match run
    case Begin => State(0, [], map[])
    case Then(prev, step) => Next(chain, tolerance, onResync, StateAfter(chain, tolerance, onResync, prev), step)
  }

  /** Queued numbers rise, from past what the detector remembers to at most the
      highest block seen. */
  ghost predicate QueueRises(s: State, k: Key) {
    && s.lastBlock >= 0
    && (forall i :: 0 <= i < |s.queue| ==> s.queue[i] == NO_SEQUENCE || 0 < s.queue[i] <= s.lastBlock)
    && (forall i, j :: 0 <= i < j < |s.queue| && s.queue[i] != NO_SEQUENCE && s.queue[j] != NO_SEQUENCE ==>
          s.queue[i] < s.queue[j])
    && (k in s.last ==>
          s.last[k] <= s.lastBlock
          && forall i :: 0 <= i < |s.queue| && s.queue[i] != NO_SEQUENCE ==> s.last[k] < s.queue[i])
  }

  lemma StepKeepsRising(chain: string, tolerance: int, onResync: OnResync, s: State, step: Step)
    requires QueueRises(s, ChainKey(chain))
    ensures QueueRises(Next(chain, tolerance, onResync, s, step), ChainKey(chain))
  {
  }

  lemma {:induction false} ReachableRising(chain: string, tolerance: int, onResync: OnResync, run: Run)
    ensures QueueRises(StateAfter(chain, tolerance, onResync, run), ChainKey(chain))
  {
    match run
    case Begin =>
    case Then(prev, step) =>
      ReachableRising(chain, tolerance, onResync, prev);
      StepKeepsRising(chain, tolerance, onResync, StateAfter(chain, tolerance, onResync, prev), step);
  }

  /** Whatever order blocks arrive in, whenever reconnects happen and whether or not a
      hook forgets the chain after each gap, no transfer is ever judged a duplicate or a
      regression, so none is dropped; a gap is reported exactly when the next sequenced
      block skips some of those after the one remembered, and counts them. */
  lemma NoTransferIsDropped(chain: string, tolerance: int, onResync: OnResync, run: Run)
    requires StateAfter(chain, tolerance, onResync, run).queue != []
    ensures var s := StateAfter(chain, tolerance, onResync, run);
            var r := Verdict(s.last, tolerance, ChainKey(chain), s.queue[0]);
            && !r.status.Duplicate? && !r.status.Regression?
            && (r.status.Unsequenced? <==> s.queue[0] == NO_SEQUENCE)
            && (r.status.Gap? <==> s.queue[0] != NO_SEQUENCE && ChainKey(chain) in s.last
                                   && s.queue[0] > s.last[ChainKey(chain)] + 1)
            && r.missing == if r.status.Gap? then s.queue[0] - s.last[ChainKey(chain)] - 1 else 0
  {
    ReachableRising(chain, tolerance, onResync, run);
  }

  /** All sequences ever emitted, in order. */
  function Emitted(blocks: seq<int>): seq<int> {
    if blocks == [] then []
    else Emitted(blocks[..|blocks| - 1]) + [SequenceOf(Highest(blocks[..|blocks| - 1]), blocks[|blocks| - 1])]
  }

  function Highest(blocks: seq<int>): int {
    if blocks == [] then 0 else Max(Highest(blocks[..|blocks| - 1]), blocks[|blocks| - 1])
  }

  /** A transfer is sequenced exactly when its block is the highest so far (and
      positive), and then by its own block: the sequenced events are the strict
      record highs of the block numbers. */
  lemma {:induction false} SequencedAreRecordHighs(blocks: seq<int>, i: nat)
    requires i < |blocks|
    ensures |Emitted(blocks)| == |blocks|
    ensures (Emitted(blocks)[i] != NO_SEQUENCE) <==>
            (blocks[i] > 0 && forall j :: 0 <= j < i ==> blocks[j] < blocks[i])
    ensures Emitted(blocks)[i] != NO_SEQUENCE ==> Emitted(blocks)[i] == blocks[i]
  {
    var n := |blocks| - 1;
    EmittedLength(blocks);
    EmittedLength(blocks[..n]);
    if i < n {
      SequencedAreRecordHighs(blocks[..n], i);
    } else {
      HighestIsMax(blocks[..n]);
    }
  }

  lemma {:induction false} EmittedLength(blocks: seq<int>)
    ensures |Emitted(blocks)| == |blocks|
  {
    if blocks != [] { EmittedLength(blocks[..|blocks| - 1]); }
  }

  lemma {:induction false} HighestIsMax(blocks: seq<int>)
    ensures Highest(blocks) >= 0
    ensures forall j :: 0 <= j < |blocks| ==> blocks[j] <= Highest(blocks)
    ensures Highest(blocks) == 0 || Highest(blocks) in blocks
  {
    if blocks != [] {
      HighestIsMax(blocks[..|blocks| - 1]);
    }
  }
}
