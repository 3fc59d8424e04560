/**
  The coordinator: cuts the input into batches, hands every batch to a
  worker, and returns the table once every worker has finished.

  The workers run concurrently and each table update is atomic, so the
  updates of a run happen in some interleaving of the batches: a
  rearrangement of the input lines. The lemmas below show that the batch
  size, the order of the batches and the interleaving of their lines all
  leave the final table unchanged.
 */
module Coordinator {
  import opened Stats
  import opened Table
  import opened Worker
  import opened Batching

  /** Runs the workers one batch after another, the last batch last. */
  function FoldBatches(t: Table, batches: seq<seq<string>>): Table {
    if |batches| == 0 then t
    else Fold(FoldBatches(t, batches[..|batches| - 1]), batches[|batches| - 1])
  }

  /** Processing batch by batch is processing their lines in order. */
  lemma {:induction false} FoldBatchesConcat(t: Table, batches: seq<seq<string>>)
    ensures FoldBatches(t, batches) == Fold(t, Concat(batches))
  {
    if |batches| > 0 {
      var init := batches[..|batches| - 1];
      FoldBatchesConcat(t, init);
      FoldAppend(t, Concat(init), batches[|batches| - 1]);
    }
  }

  /** The table of a run whose batches are processed in input order. */
  function Aggregate(lines: seq<string>, batchSize: int): Table {
    FoldBatches(EmptyTable, Chunks(lines, batchSize))
  }

  /** Batching loses and duplicates nothing: the batched run folds every line once. */
  lemma BatchedEqualsFlat(lines: seq<string>, batchSize: int)
    ensures Aggregate(lines, batchSize) == Fold(EmptyTable, lines)
  {
    FoldBatchesConcat(EmptyTable, Chunks(lines, batchSize));
    ChunksConcat(lines, batchSize);
  }

  /** The batch size does not change the table. */
  lemma BatchSizeInvariance(lines: seq<string>, size1: int, size2: int)
    ensures Aggregate(lines, size1) == Aggregate(lines, size2)
  {
    BatchedEqualsFlat(lines, size1);
    BatchedEqualsFlat(lines, size2);
  }

  /**
    Whatever order the workers finish in, the table is that of the input
    lines folded in order.
   */
  lemma AnyBatchOrder(lines: seq<string>, batchSize: int, order: seq<seq<string>>)
    requires multiset(order) == multiset(Chunks(lines, batchSize))
    ensures FoldBatches(EmptyTable, order) == Fold(EmptyTable, lines)
  {
    FoldBatchesConcat(EmptyTable, order);
    ConcatPermutation(order, Chunks(lines, batchSize));
    ChunksConcat(lines, batchSize);
    FoldPermutation(EmptyTable, Concat(order), lines);
  }

  /**
    However the updates of concurrent workers interleave, as long as each
    line is recorded exactly once the table is the one of the batched run.
   */
  lemma AnyInterleaving(lines: seq<string>, batchSize: int, schedule: seq<string>)
    requires multiset(schedule) == multiset(lines)
    ensures Fold(EmptyTable, schedule) == Aggregate(lines, batchSize)
  {
    FoldPermutation(EmptyTable, schedule, lines);
    BatchedEqualsFlat(lines, batchSize);
  }

  /**
    The whole run: partitions the lines, processes every batch and returns
    the finished table. Every entry in it is valid and summarises the
    values of the lines that parse to its name.
   */
  method Run(lines: seq<string>, batchSize: int) returns (t: Table)
    ensures t == Fold(EmptyTable, lines)
    ensures WellFormed(t)
    ensures forall name :: Lookup(t, name).None? <==> Values(lines, name) == []
    ensures forall name :: Lookup(t, name).Some? ==> Summarises(Lookup(t, name).value, Values(lines, name))
  {
    var batches := Partition(lines, batchSize);
    t := EmptyTable;
    var j := 0;
    while j < |batches|
      invariant 0 <= j <= |batches|
      invariant t == FoldBatches(EmptyTable, batches[..j])
    {
      assert batches[..j + 1][..j] == batches[..j];
      t := ProcessBatch(t, batches[j]);
      j := j + 1;
    }
    assert batches[..|batches|] == batches;
    BatchedEqualsFlat(lines, batchSize);
    FoldedTable(lines);
  }

  /**
    The table folded from an empty one keeps the invariant, and every name's
    entry summarises the values of the lines that parse to that name.
   */
  lemma FoldedTable(lines: seq<string>)
    ensures WellFormed(Fold(EmptyTable, lines))
    ensures forall name :: Lookup(Fold(EmptyTable, lines), name).None? <==> Values(lines, name) == []
    ensures forall name :: Lookup(Fold(EmptyTable, lines), name).Some? ==>
      Summarises(Lookup(Fold(EmptyTable, lines), name).value, Values(lines, name))
  {
    EmptyValid();
    FoldWellFormed(EmptyTable, lines);
    forall name | true
      ensures Lookup(Fold(EmptyTable, lines), name).None? <==> Values(lines, name) == []
      ensures Lookup(Fold(EmptyTable, lines), name).Some? ==>
        Summarises(Lookup(Fold(EmptyTable, lines), name).value, Values(lines, name))
    {
      FoldSummarises(lines, name);
    }
  }

  /**
    The table is determined by the values each name receives: two inputs
    whose lines give every name the same values give the same table.
   */
  lemma TableDeterminedByValues(xs: seq<string>, ys: seq<string>)
    requires forall name :: Values(xs, name) == Values(ys, name)
    ensures Fold(EmptyTable, xs) == Fold(EmptyTable, ys)
  {
    var tx, ty := Fold(EmptyTable, xs), Fold(EmptyTable, ys);
    FoldedTable(xs);
    FoldedTable(ys);
    forall name | true
      ensures Lookup(tx, name) == Lookup(ty, name)
    {
      if Lookup(tx, name).Some? {
        SummaryUnique(Lookup(tx, name).value, Lookup(ty, name).value, Values(xs, name));
      }
    }
    LookupDetermines(tx, ty);
  }
}
