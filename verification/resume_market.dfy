/** Machine integers, the optional end date, the market lifecycle and the
    error codes that the fixed-price-sale program uses when it resumes a market. */
module Types {

  /** Rust's `u64`. */
  newtype u64 = x: int | 0 <= x < 0x1_0000_0000_0000_0000

  /** Rust's `i64`, the type of the clock's `unix_timestamp`. */
  newtype i64 = x: int | -0x8000_0000_0000_0000 <= x < 0x8000_0000_0000_0000

  datatype Option<T> = None | Some(value: T)

  /** The lifecycle of a market. Only the three states that resuming inspects
      or writes are named; every other state falls under `Other`. */
  datatype MarketState = Suspended | Active | Ended | Other(tag: nat)

  /** The two error codes resuming can report. */
  datatype ErrorCode = MarketIsEnded | MarketInInvalidState

  /** The program result of an instruction: success or one error code. */
  datatype Outcome = Ok | Err(code: ErrorCode)

  /** The Rust cast `ts as u64`: the same 64 bits read as unsigned, so a
      non-negative timestamp keeps its value and a negative one lands in the
      upper half of the `u64` range. */
  function AsU64(ts: i64): (r: u64)
    ensures ts >= 0 ==> r as int == ts as int
    ensures ts < 0 ==> r as int >= 0x8000_0000_0000_0000
    ensures (r as int - ts as int) % 0x1_0000_0000_0000_0000 == 0
  {
    (ts as int % 0x1_0000_0000_0000_0000) as u64
  }
}

/** `ResumeMarket::process`: brings a suspended market back to the active
    state, unless the market has ended, either by state or by its end date. */
module ResumeMarket {
  import opened Types

  /** Whether the clock is strictly past the market's optional end date, with
      the clock cast to `u64` before the comparison. */
  function IsPastEnd(endDate: Option<u64>, clock: i64): (past: bool)
    ensures endDate == None ==> !past
    // A clock exactly at the end date has not passed it.
    ensures endDate == Some(AsU64(clock)) ==> !past
    ensures endDate.Some? && clock >= 0 ==> (past <==> clock as int > endDate.value as int)
    // Through the cast, any negative clock is past an end date below 2^63.
    ensures endDate.Some? && clock < 0 && endDate.value < 0x8000_0000_0000_0000 ==> past
    // In general a negative clock reads as the clock plus 2^64.
    ensures endDate.Some? && clock < 0
            ==> (past <==> clock as int + 0x1_0000_0000_0000_0000 > endDate.value as int)
  {
    match endDate
    case None => false
    case Some(d) => AsU64(clock) > d
  }

  /** What resuming a market in `state` with end date `endDate` at time
      `clock` reports. The checks run in the order the program makes them:
      ended state, then end date, then suspended state. */
  function ResumeResult(state: MarketState, endDate: Option<u64>, clock: i64): (r: Outcome)
    // An ended market is refused as ended, whatever its end date and the clock.
    ensures state == Ended ==> r == Err(MarketIsEnded)
    ensures IsPastEnd(endDate, clock) ==> r == Err(MarketIsEnded)
    ensures r == Err(MarketIsEnded) <==> state == Ended || IsPastEnd(endDate, clock)
    // Not ended, but not suspended either (an active market among them).
    ensures r == Err(MarketInInvalidState)
            <==> state != Ended && !IsPastEnd(endDate, clock) && state != Suspended
    ensures r == Ok
            <==> state == Suspended && (endDate == None || AsU64(clock) <= endDate.value)
  {
    if state == Ended then Err(MarketIsEnded)
    else if IsPastEnd(endDate, clock) then Err(MarketIsEnded)
    else if state != Suspended then Err(MarketInInvalidState)
    else Ok
  }

  /** The market account, as far as resuming reads and writes it. */
  class Market {
    var state: MarketState
    var endDate: Option<u64>

    constructor (state: MarketState, endDate: Option<u64>)
      ensures this.state == state && this.endDate == endDate
    {
      this.state := state;
      this.endDate := endDate;
    }

    /** `ResumeMarket::process` at clock `clock`. Every refusal returns before
        the single write, so a refused market is left as it was; on success
        only the state changes, to `Active`. */
    method Resume(clock: i64) returns (r: Outcome)
      modifies this`state
      ensures r == ResumeResult(old(state), old(endDate), clock)
      ensures r == Ok ==> state == Active
      ensures r != Ok ==> state == old(state)
      ensures state == StateAfter(old(state), old(endDate), clock)
      ensures endDate == old(endDate)
    {
      if state == Ended {
        return Err(MarketIsEnded);
      }
      if endDate.Some? {
        if AsU64(clock) > endDate.value {
          return Err(MarketIsEnded);
        }
      }
      if state != Suspended {
        return Err(MarketInInvalidState);
      }
      state := Active;
      return Ok;
    }
  }

  /** The state a market holds after one resume attempt. */
  function StateAfter(state: MarketState, endDate: Option<u64>, clock: i64): (s: MarketState)
    ensures s == Active <==> state == Active || ResumeResult(state, endDate, clock) == Ok
    ensures s != Active ==> s == state
  {
    if ResumeResult(state, endDate, clock) == Ok then Active else state
  }

  /** The outcomes of resuming one market repeatedly, once per clock reading
      in `clocks`, each attempt seeing the state the previous one left. */
  function Replay(state: MarketState, endDate: Option<u64>, clocks: seq<i64>): (outs: seq<Outcome>)
    ensures |outs| == |clocks|
    // An active market is never resumed again.
    ensures state == Active ==> forall i :: 0 <= i < |outs| ==> outs[i] != Ok
    // At most one attempt in any sequence succeeds.
    ensures forall i, j :: 0 <= i < j < |outs| && outs[i] == Ok ==> outs[j] != Ok
    decreases |clocks|
  {
    if clocks == [] then []
    else
      [ResumeResult(state, endDate, clocks[0])]
      + Replay(StateAfter(state, endDate, clocks[0]), endDate, clocks[1..])
  }

  /** An ended market stays ended: every attempt to resume it is refused as
      ended, however often and at whatever time it is made. */
  lemma {:induction false} ReplayFromEnded(endDate: Option<u64>, clocks: seq<i64>)
    ensures forall i :: 0 <= i < |clocks| ==> Replay(Ended, endDate, clocks)[i] == Err(MarketIsEnded)
    decreases |clocks|
  {
    if clocks != [] {
      ReplayFromEnded(endDate, clocks[1..]);
      var outs := Replay(Ended, endDate, clocks);
      forall i | 0 <= i < |clocks| ensures outs[i] == Err(MarketIsEnded) {
        if i > 0 {
          assert outs[i] == Replay(Ended, endDate, clocks[1..])[i - 1];
        }
      }
    }
  }
}
