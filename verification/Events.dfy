/** What travels between the tiers: trades, book updates and quotes.

    Doubles are exact reals; where the source tests for NaN or infinity the value
    is a `Double`. Times and sequence numbers are unbounded integers. */
module Events {

  datatype Option<+T> = None | Some(value: T) {
    function GetOr(default: T): T {
      match this
      case Some(v) => v
      case None => default
    }
  }

  /** A double that may not be a number. */
  datatype Double = Finite(value: real) | NotANumber | Infinite

  /** A price and the quantity resting there; without a quantity it asks for removal. */
  datatype Level = Level(price: real, size: real)

  datatype Trade = Trade(
    venue: string, symbol: string, tradeId: string,
    price: real, size: real, side: string,
    eventTimeUs: int, ingestTimeUs: int, sequence: int)
  {
    function Notional(): real { price * size }
  }

  /** An L2 update; the parallel arrays of the source are sequences here. */
  datatype BookDelta = BookDelta(
    venue: string, symbol: string, isSnapshot: bool,
    bidPrices: seq<real>, bidSizes: seq<real>,
    askPrices: seq<real>, askSizes: seq<real>,
    eventTimeUs: int, ingestTimeUs: int, sequence: int)
  {
    function Bids(): seq<Level> { Zip(bidPrices, bidSizes) }

    function Asks(): seq<Level> { Zip(askPrices, askSizes) }
  }

  /** Pairs two parallel arrays, stopping at the shorter one. */
  function Zip(prices: seq<real>, sizes: seq<real>): (levels: seq<Level>)
    ensures |levels| == if |prices| <= |sizes| then |prices| else |sizes|
    ensures forall i :: 0 <= i < |levels| ==> levels[i] == Level(prices[i], sizes[i])
  {
    var n := if |prices| <= |sizes| then |prices| else |sizes|;
    seq(n, i requires 0 <= i < n => Level(prices[i], sizes[i]))
  }

  /** Best prices and sizes of one book, with its imbalance. */
  datatype Quote = Quote(
    venue: string, symbol: string,
    bidPrice: real, bidSize: real, askPrice: real, askSize: real,
    imbalance: real, eventTimeUs: int, emitTimeUs: int)
  {
    function Mid(): real { (bidPrice + askPrice) / 2.0 }

    predicate IsValid() { bidPrice > 0.0 && askPrice > 0.0 && askPrice >= bidPrice }
  }

  function Min(a: int, b: int): int { if a <= b then a else b }

  function Max(a: int, b: int): int { if a >= b then a else b }

  function MinReal(a: real, b: real): real { if a <= b then a else b }

  function MaxReal(a: real, b: real): real { if a >= b then a else b }
}
