/** The change-event consumer, with the Bronze table and the checkpoint it updates in order. */
module CdcConsumer {
  import opened Bytes
  import opened Cdc

  method InsertUnmatched(bronze: Log, rows: Log) returns (result: Log)
    ensures result == bronze + Unmatched(bronze, rows)
  {
    hide HasKey;
    result := bronze;
    for i := 0 to |rows|
      invariant result == bronze + Unmatched(bronze, rows[..i])
    {
      assert rows[..i + 1][..i] == rows[..i];
      if !HasKey(bronze, rows[i].decisionId) { result := result + [rows[i]]; }
    }
    assert rows[..|rows|] == rows;
  }

  class Consumer {
    var log: Log
    var bronze: Log
    var checkpoint: Option<int>

    function View(): Sink reads this { Sink(bronze, checkpoint) }

    constructor ()
      ensures log == [] && View() == Sink([], None)
    {
      log, bronze, checkpoint := [], [], None;
    }

    method PollAndLand(limit: int) returns (seen: nat, inserted: nat)
      modifies this`bronze, this`checkpoint
      ensures (View(), seen, inserted) == Cdc.PollAndLand(log, old(View()), limit)
    {
      hide Poll, Unmatched;
      var events := Poll(log, checkpoint, limit);
      if events == [] { return 0, 0; }
      var before := |bronze|;
      bronze := InsertUnmatched(bronze, events);
      var last := events[|events| - 1].cursor;
      if last.Some? { checkpoint := last; }
      return |events|, |bronze| - before;
    }

    method RunOnce(batchSize: int) returns (inserted: nat)
      modifies this`bronze, this`checkpoint
      ensures View() == Cdc.PollAndLand(log, old(View()), batchSize).0
      ensures inserted == Cdc.PollAndLand(log, old(View()), batchSize).2
    {
      var seen;
      seen, inserted := PollAndLand(batchSize);
    }

    method RunUntilDrained(batchSize: int, maxBatches: int) returns (total: nat)
      modifies this`bronze, this`checkpoint
      ensures (View(), total) == Drain(log, old(View()), batchSize, if maxBatches < 0 then 0 else maxBatches)
    {
      hide Cdc.PollAndLand;
      total := 0;
      var bound := if maxBatches < 0 then 0 else maxBatches;
      for i := 0 to bound
        invariant var whole, rest :=
                    Drain(log, old(View()), batchSize, bound), Drain(log, View(), batchSize, bound - i);
                  whole == (rest.0, total + rest.1)
      {
        var seen, inserted := PollAndLand(batchSize);
        if seen == 0 { break; }
        total := total + inserted;
      }
    }
  }
}
