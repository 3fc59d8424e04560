/**
  Cutting the input lines into batches: lines are collected in order and a
  batch is dispatched as soon as it holds `batchSize` lines; what is left at
  the end becomes one last, shorter batch.
 */
module Batching {
  import opened Multisets

  /** The lines of all batches, in batch order. */
  function Concat(batches: seq<seq<string>>): seq<string> {
    if |batches| == 0 then []
    else Concat(batches[..|batches| - 1]) + batches[|batches| - 1]
  }

  lemma {:induction false} ConcatAppend(a: seq<seq<string>>, b: seq<seq<string>>)
    ensures Concat(a + b) == Concat(a) + Concat(b)
  {
    if |b| == 0 {
      assert a + b == a;
    } else {
      var b' := b[..|b| - 1];
      assert (a + b)[..|a + b| - 1] == a + b';
      ConcatAppend(a, b');
    }
  }

  /** Rearranging batches rearranges their lines. */
  lemma {:induction false} ConcatPermutation(xs: seq<seq<string>>, ys: seq<seq<string>>)
    requires multiset(xs) == multiset(ys)
    ensures multiset(Concat(xs)) == multiset(Concat(ys))
    decreases |xs|
  {
    if |xs| == 0 {
      assert |ys| == |multiset(ys)| == 0;
    } else {
      var x := xs[|xs| - 1];
      var xs' := xs[..|xs| - 1];
      assert xs == xs' + [x];
      assert x in multiset(ys);
      var i :| 0 <= i < |ys| && ys[i] == x;
      RemoveOne(xs', ys, i);
      ConcatPermutation(xs', ys[..i] + ys[i + 1..]);
      ConcatWithout(ys, i);
    }
  }

  /** The lines of a list of batches are those of one batch plus those of the others. */
  lemma ConcatWithout(ys: seq<seq<string>>, i: nat)
    requires i < |ys|
    ensures multiset(Concat(ys)) == multiset(Concat(ys[..i] + ys[i + 1..])) + multiset(ys[i])
  {
    ConcatAround(ys, i);
    ConcatAppend(ys[..i], ys[i + 1..]);
    var a, x, b := Concat(ys[..i]), ys[i], Concat(ys[i + 1..]);
    assert multiset(a + x + b) == multiset(a) + multiset(x) + multiset(b);
    assert multiset(a + b) == multiset(a) + multiset(b);
  }

  lemma ConcatAround(ys: seq<seq<string>>, i: nat)
    requires i < |ys|
    ensures Concat(ys) == Concat(ys[..i]) + ys[i] + Concat(ys[i + 1..])
  {
    var upto, back := ys[..i + 1], ys[i + 1..];
    assert ys == upto + back;
    ConcatAppend(upto, back);
    assert upto[..i] == ys[..i];
    assert Concat(upto) == Concat(ys[..i]) + ys[i];
  }

  lemma ConcatOne(x: seq<string>)
    ensures Concat([x]) == x
  {
    assert [x][..0] == [];
  }

  /**
    Reference definition of the batches: full batches of `size` lines from
    the front and a non-empty remainder last. A size that is not positive is
    never reached by a growing batch, so then all lines form one batch.
   */
  function Chunks(lines: seq<string>, size: int): seq<seq<string>> {
    ChunksFrom(lines, 0, size)
  }

  /** The batches of the lines from `start` on. */
  function ChunksFrom(lines: seq<string>, start: nat, size: int): seq<seq<string>>
    requires start <= |lines|
    decreases |lines| - start
  {
    if start == |lines| then []
    else if size <= 0 || |lines| - start <= size then [lines[start..]]
    else [lines[start..start + size]] + ChunksFrom(lines, start + size, size)
  }

  /** The batches, concatenated in order, are exactly the input lines. */
  lemma ChunksConcat(lines: seq<string>, size: int)
    ensures Concat(Chunks(lines, size)) == lines
  {
    ChunksFromConcat(lines, 0, size);
  }

  lemma {:induction false} ChunksFromConcat(lines: seq<string>, start: nat, size: int)
    requires start <= |lines|
    ensures Concat(ChunksFrom(lines, start, size)) == lines[start..]
    decreases |lines| - start
  {
    if start < |lines| && size > 0 && |lines| - start > size {
      var head := lines[start..start + size];
      var rest := ChunksFrom(lines, start + size, size);
      assert ChunksFrom(lines, start, size) == [head] + rest;
      ConcatAppend([head], rest);
      ConcatOne(head);
      ChunksFromConcat(lines, start + size, size);
      assert head + lines[start + size..] == lines[start..];
    } else if start < |lines| {
      ConcatOne(lines[start..]);
    }
  }

  /**
    With a positive size every batch but the last holds exactly `size`
    lines and the last holds between one and `size`; no batch is empty.
   */
  lemma {:induction false} ChunkSizes(lines: seq<string>, start: nat, size: int)
    requires start <= |lines| && size > 0
    ensures var bs := ChunksFrom(lines, start, size);
      && (forall i :: 0 <= i < |bs| - 1 ==> |bs[i]| == size)
      && (|bs| > 0 ==> 1 <= |bs[|bs| - 1]| <= size)
    decreases |lines| - start
  {
    if start < |lines| && |lines| - start > size {
      ChunkSizes(lines, start + size, size);
      var rest := ChunksFrom(lines, start + size, size);
      var bs := ChunksFrom(lines, start, size);
      assert bs == [lines[start..start + size]] + rest;
      forall i | 0 <= i < |bs| - 1 ensures |bs[i]| == size {
        if i > 0 { assert bs[i] == rest[i - 1]; }
      }
    }
  }

  /** No batch is empty, and without a positive size there is at most one. */
  lemma {:induction false} ChunksNonEmpty(lines: seq<string>, start: nat, size: int)
    requires start <= |lines|
    ensures forall i :: 0 <= i < |ChunksFrom(lines, start, size)| ==> |ChunksFrom(lines, start, size)[i]| > 0
    ensures size <= 0 ==> |ChunksFrom(lines, start, size)| <= 1
    decreases |lines| - start
  {
    if start < |lines| && size > 0 && |lines| - start > size {
      ChunksNonEmpty(lines, start + size, size);
    }
  }

  /** Without a positive size all lines form a single batch. */
  lemma OneBatchWithoutPositiveSize(lines: seq<string>, size: int)
    requires size <= 0 && |lines| > 0
    ensures Chunks(lines, size) == [lines]
  {
    assert lines[0..] == lines;
  }

  /**
    The batching loop: appends each line to the current batch, dispatches
    the batch when it reaches `batchSize` lines, and dispatches a non-empty
    remainder at the end. The dispatched batches are the reference batches,
    and concatenated they give the input; ChunksShape states their sizes.
   */
  method Partition(lines: seq<string>, batchSize: int) returns (batches: seq<seq<string>>)
    ensures batches == Chunks(lines, batchSize)
    ensures Concat(batches) == lines
  {
    batches := [];
    var batch: seq<string> := [];
    ghost var start := 0;
    var i := 0;
    while i < |lines|
      invariant 0 <= start <= i <= |lines|
      invariant batch == lines[start..i]
      invariant batchSize > 0 ==> |batch| < batchSize
      invariant batchSize <= 0 ==> batches == [] && start == 0
      invariant batches + ChunksFrom(lines, start, batchSize) == Chunks(lines, batchSize)
    {
      assert lines[start..i + 1] == lines[start..i] + [lines[i]];
      batch := batch + [lines[i]];
      i := i + 1;
      if |batch| == batchSize {
        DispatchFull(lines, batches, start, batchSize);
        batches := batches + [batch];
        batch := [];
        start := i;
      }
    }
    assert batch == lines[start..];
    LastBatch(lines, batches, start, batchSize);
    if |batch| > 0 {
      batches := batches + [batch];
    }
    ChunksConcat(lines, batchSize);
  }

  /** Dispatching the full batch at `start` keeps the dispatched batches a prefix of the reference batches. */
  lemma DispatchFull(lines: seq<string>, batches: seq<seq<string>>, start: nat, size: int)
    requires size > 0 && start + size <= |lines|
    requires batches + ChunksFrom(lines, start, size) == Chunks(lines, size)
    ensures (batches + [lines[start..start + size]]) + ChunksFrom(lines, start + size, size) == Chunks(lines, size)
  {
    var b := lines[start..start + size];
    if start + size == |lines| {
      assert lines[start..] == b;
    }
    assert ChunksFrom(lines, start, size) == [b] + ChunksFrom(lines, start + size, size);
    assert (batches + [b]) + ChunksFrom(lines, start + size, size)
        == batches + ([b] + ChunksFrom(lines, start + size, size));
  }

  /** Dispatching the lines from `start` on, fewer than a full batch, as one batch completes the reference batches. */
  lemma LastBatch(lines: seq<string>, batches: seq<seq<string>>, start: nat, size: int)
    requires start <= |lines|
    requires size > 0 ==> |lines| - start < size
    requires batches + ChunksFrom(lines, start, size) == Chunks(lines, size)
    ensures (if start == |lines| then batches else batches + [lines[start..]]) == Chunks(lines, size)
  {
    if start == |lines| {
      assert ChunksFrom(lines, start, size) == [];
      assert batches + [] == batches;
    } else {
      assert ChunksFrom(lines, start, size) == [lines[start..]];
    }
  }

  /** The properties of the reference batches the batching loop promises. */
  lemma ChunksShape(lines: seq<string>, size: int)
    ensures var bs := Chunks(lines, size);
      && Concat(bs) == lines
      && (forall i :: 0 <= i < |bs| ==> |bs[i]| > 0)
      && (size > 0 ==> forall i :: 0 <= i < |bs| - 1 ==> |bs[i]| == size)
      && (size <= 0 ==> |bs| <= 1)
  {
    ChunksConcat(lines, size);
    ChunksNonEmpty(lines, 0, size);
    if size > 0 {
      ChunkSizes(lines, 0, size);
    }
  }
}
