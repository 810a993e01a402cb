/** The batcher's counters and lists, as values: B is what waits, T what has left. */
module Epochs {
  datatype BatcherState<B, T> = BatcherState(
    counter: nat,        // current epoch
    remaining: nat,      // running transactions that have not left
    blocked: seq<B>,     // those waiting for the next epoch
    committed: seq<T>,
    aborted: seq<T>)

  /** Where an arriving transaction is placed. */
  datatype Entry = Entry(epoch: nat, trNum: nat, waits: bool)

  function IdleBatcher<B, T>(): BatcherState<B, T> {
    BatcherState(0, 0, [], [], [])
  }

  function Place<B, T>(b: BatcherState<B, T>): Entry {
    if b.remaining == 0 then Entry(b.counter, 1, false) else Entry(b.counter + 1, |b.blocked| + 1, true)
  }

  function Enter<B, T>(b: BatcherState<B, T>, thread: B): BatcherState<B, T> {
    if b.remaining == 0 then b.(remaining := 1) else b.(blocked := b.blocked + [thread])
  }

  /** A departure, before any end of epoch. */
  function Depart<B, T>(b: BatcherState<B, T>, t: T, aborted: bool): BatcherState<B, T>
    requires b.remaining > 0
  {
    if aborted then b.(remaining := b.remaining - 1, aborted := b.aborted + [t])
    else b.(remaining := b.remaining - 1, committed := b.committed + [t])
  }

  /** The batcher once an epoch has been settled: everyone who waited runs. */
  function NextEpoch<B, T>(b: BatcherState<B, T>): BatcherState<B, T> {
    BatcherState(b.counter + 1, |b.blocked|, [], [], [])
  }
}
