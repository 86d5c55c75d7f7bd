# Resuming a fixed-price-sale market

This project models the `ResumeMarket` instruction of the fixed-price-sale
program. The instruction takes a suspended market and puts
it back into the `Active` state. It refuses in three cases, checked in this
order:

1. the market is already in the `Ended` state (`MarketIsEnded`);
2. the market has an end date and the clock's Unix timestamp, cast from `i64`
   to `u64`, is strictly greater than it (`MarketIsEnded`);
3. the market is in any state other than `Suspended` (`MarketInInvalidState`).

Because of the cast, a negative timestamp reads as a value of at least 2^63,
so it is past every end date below 2^63; it is not past an end date at or
above the value it reads as (timestamp -1 against end date 2^64 - 1, say).

Every refusal returns before the only write, so a refused market is left
unchanged. On success only the market's `state` field is written.

The model is one file, `resume_market.dfy`:

- module `Types`: `u64` and `i64` as newtypes, the Rust cast `as u64` as
  reduction modulo 2^64, `Option`, the market lifecycle `MarketState`, the two
  error codes and the instruction's `Outcome`;
- module `ResumeMarket`: the specification function `ResumeResult`, the class
  `Market` whose method `Resume` changes the market's `state` in place, and
  `Replay`, which runs repeated resume attempts against one market.

## Model

| member | source | states |
|---|---|---|
| `Types.AsU64` | fixed-price-sale/program/src/processor/resume_market.rs:17 | the cast keeps a non-negative clock's value, sends a negative clock into the upper half of the `u64` range, and is congruent to the clock modulo 2^64 |
| `ResumeMarket.IsPastEnd` | fixed-price-sale/program/src/processor/resume_market.rs:16-20 | a market without an end date is never past it; a clock equal to the end date is not past it (strict `>`); for a non-negative clock, past means strictly later; a negative clock is past every end date below 2^63, and in general is past exactly the end dates below the clock plus 2^64 |
| `ResumeMarket.ResumeResult` | fixed-price-sale/program/src/processor/resume_market.rs:12-29 | an `Ended` market is refused with `MarketIsEnded` whatever the end date and clock; a clock past the end date is refused with `MarketIsEnded`; `MarketInInvalidState` exactly when the market is neither ended nor past its end date and not `Suspended` (an `Active` market included), so an ended market never reports it; success exactly when the state is `Suspended` and there is no end date or the cast clock is at most the end date |
| `ResumeMarket.Market.Resume` | fixed-price-sale/program/src/processor/resume_market.rs:5-30 | the result is `ResumeResult` of the state and end date before the call; on success the state becomes `Active`; on every refusal the state is unchanged; the new state is `StateAfter` of the old state, so repeated calls follow `Replay`; the end date never changes and the method may write nothing but `state` |
| `ResumeMarket.StateAfter` | fixed-price-sale/program/src/processor/resume_market.rs:23-27 | after one attempt the market is `Active` exactly when it was `Active` already or the attempt succeeded; otherwise it keeps its state |
| `ResumeMarket.Replay` | fixed-price-sale/program/src/processor/resume_market.rs:12-27 | over any sequence of attempts on one market, an `Active` market is never resumed again and at most one attempt succeeds |
| `ResumeMarket.ReplayFromEnded` | fixed-price-sale/program/src/processor/resume_market.rs:11-14 | every attempt to resume an `Ended` market, at any clock and however often, is refused with `MarketIsEnded` |

## Left out

- The `MarketState` enumeration is defined in a state module that is not part of this model; only `Suspended`, `Active` and `Ended` are named and every other state is the catch-all `Other`.
- Signer and owner constraints on the instruction's accounts, and account wiring and deserialisation of the `ResumeMarket` accounts and the `Clock` sysvar: the market's state and end date are the fields of `Market`, and the clock's `unix_timestamp` is a parameter of `Resume`.
- The market's other fields (store, owner, price, dates other than the end date, ...) are not modelled; the frame of `Resume` names only the `state` field, which states that nothing but `state` is written.
- The conversion of the error code into a `ProgramError` and the `ProgramResult` type: the result is the two-case `Outcome`.
- token-vault/js/test/withdraw-shares-from-treasury.ts is an integration test that sends transactions to a running cluster and queries balances; the share minting and withdrawal accounting it exercises is not part of this model.
- Atomicity and serialisation of transactions belong to the runtime, not to the instruction.
