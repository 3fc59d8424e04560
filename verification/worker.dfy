/**
  The batch worker: parses each line of a batch and records the parsed
  observations in the table, skipping every line that does not parse.
 */
module Worker {
  import opened Wrappers
  import opened Parser
  import opened Stats
  import opened Table
  import opened Multisets

  /** Records one line: a line that parses is recorded, any other is skipped. */
  function Step(t: Table, line: string): Table {
    Apply(t, ParseRecord(line))
  }

  /** Records the outcome of parsing one line. */
  function Apply(t: Table, parsed: Result<Record, ParseError>): Table
    requires parsed.Ok? ==> |parsed.value.name| > 0
  {
    match parsed
    case Err(_) => t
    case Ok(rec) => UpdateStats(t, rec.name, rec.value)
  }

  /** Records the lines in order, the last line last. */
  function Fold(t: Table, lines: seq<string>): Table {
    if |lines| == 0 then t
    else Step(Fold(t, lines[..|lines| - 1]), lines[|lines| - 1])
  }

  /**
    Processes one batch line by line: each line that parses updates the
    table, each line that fails to parse leaves it unchanged. The result is
    the in-order fold of the batch (which keeps the table invariant, see
    FoldWellFormed).
   */
  method ProcessBatch(t: Table, batch: seq<string>) returns (r: Table)
    ensures r == Fold(t, batch)
  {
    r := t;
    var i := 0;
    while i < |batch|
      invariant 0 <= i <= |batch|
      invariant r == Fold(t, batch[..i])
    {
      FoldOneMore(t, batch, i);
      r := Step(r, batch[i]);
      i := i + 1;
    }
    assert batch[..|batch|] == batch;
  }

  lemma FoldOneMore(t: Table, lines: seq<string>, i: nat)
    requires i < |lines|
    ensures Fold(t, lines[..i + 1]) == Step(Fold(t, lines[..i]), lines[i])
  {
    assert lines[..i + 1][..i] == lines[..i];
  }

  /** A line that does not parse leaves the table unchanged. */
  lemma SkipFailedLine(t: Table, line: string)
    requires ParseRecord(line).Err?
    ensures Step(t, line) == t
  {
  }

  /** Folding keeps the table invariant. */
  lemma {:induction false} FoldWellFormed(t: Table, lines: seq<string>)
    requires WellFormed(t)
    ensures WellFormed(Fold(t, lines))
  {
    if |lines| > 0 {
      FoldWellFormed(t, lines[..|lines| - 1]);
      var before := Fold(t, lines[..|lines| - 1]);
      match ParseRecord(lines[|lines| - 1]) {
        case Err(_) =>
        case Ok(rec) => UpdateValid(before, rec.name, rec.value);
      }
    }
  }

  // ---------------------------------------------------------------------------
  // Order independence
  // ---------------------------------------------------------------------------

  /** Folding a concatenation folds the first part, then the second. */
  lemma {:induction false} FoldAppend(t: Table, a: seq<string>, b: seq<string>)
    ensures Fold(t, a + b) == Fold(Fold(t, a), b)
  {
    if |b| == 0 {
      assert a + b == a;
    } else {
      var b' := b[..|b| - 1];
      assert (a + b)[..|a + b| - 1] == a + b';
      FoldAppend(t, a, b');
    }
  }

  /** Two lines may be recorded in either order. */
  lemma StepCommutes(t: Table, x: string, y: string)
    ensures Step(Step(t, x), y) == Step(Step(t, y), x)
  {
    ApplyCommutes(t, ParseRecord(x), ParseRecord(y));
  }

  lemma ApplyCommutes(t: Table, p: Result<Record, ParseError>, q: Result<Record, ParseError>)
    requires p.Ok? ==> |p.value.name| > 0
    requires q.Ok? ==> |q.value.name| > 0
    ensures Apply(Apply(t, p), q) == Apply(Apply(t, q), p)
  {
    if p.Ok? && q.Ok? {
      UpdateCommutes(t, p.value.name, p.value.value, q.value.name, q.value.value);
    }
  }

  /** Recording a line first or after a whole list of lines gives the same table. */
  lemma {:induction false} StepThenFold(t: Table, x: string, zs: seq<string>)
    ensures Fold(Step(t, x), zs) == Step(Fold(t, zs), x)
  {
    if |zs| > 0 {
      var init := zs[..|zs| - 1];
      StepThenFold(t, x, init);
      StepCommutes(Fold(t, init), x, zs[|zs| - 1]);
    }
  }

  /**
    The table does not depend on the order of the lines: any rearrangement
    of the same lines, with the same multiplicities, gives the same table.
   */
  lemma {:induction false} FoldPermutation(t: Table, xs: seq<string>, ys: seq<string>)
    requires multiset(xs) == multiset(ys)
    ensures Fold(t, xs) == Fold(t, ys)
    decreases |xs|
  {
    if |xs| == 0 {
      assert |ys| == |multiset(ys)| == 0;
    } else {
      var x := xs[|xs| - 1];
      var xs' := xs[..|xs| - 1];
      assert xs == xs' + [x];
      assert x in multiset(ys);
      var i :| 0 <= i < |ys| && ys[i] == x;
      var ys' := ys[..i] + ys[i + 1..];
      RemoveOne(xs', ys, i);
      FoldPermutation(t, xs', ys');
      FoldWithout(t, ys, i);
    }
  }

  /** Folding a list equals folding it without one line and recording that line last. */
  lemma FoldWithout(t: Table, ys: seq<string>, i: nat)
    requires i < |ys|
    ensures Fold(t, ys) == Step(Fold(t, ys[..i] + ys[i + 1..]), ys[i])
  {
    var front, x, back := ys[..i], ys[i], ys[i + 1..];
    assert ys == (front + [x]) + back;
    FoldAppend(t, front + [x], back);
    assert (front + [x])[..|front|] == front;
    assert Fold(t, front + [x]) == Step(Fold(t, front), x);
    StepThenFold(Fold(t, front), x, back);
    FoldAppend(t, front, back);
  }

  // ---------------------------------------------------------------------------
  // Reference definition: the entry of a name summarises its values
  // ---------------------------------------------------------------------------

  /** The values of the lines that parse to a record for `name`, in input order. */
  function Values(lines: seq<string>, name: string): seq<real> {
    if |lines| == 0 then []
    else
      var last := ParseRecord(lines[|lines| - 1]);
      Values(lines[..|lines| - 1], name) +
        (if last.Ok? && last.value.name == name then [last.value.value] else [])
  }

  /**
    After folding the lines into an empty table, a name has an entry exactly
    when some line parses to it, and then the entry counts and totals those
    lines' values, and its bounds are the smallest and largest of them.
   */
  lemma {:induction false} FoldSummarises(lines: seq<string>, name: string)
    ensures Lookup(Fold(EmptyTable, lines), name).None? <==> Values(lines, name) == []
    ensures Lookup(Fold(EmptyTable, lines), name).Some? ==>
      Summarises(Lookup(Fold(EmptyTable, lines), name).value, Values(lines, name))
  {
    if |lines| > 0 {
      var init, last := lines[..|lines| - 1], lines[|lines| - 1];
      FoldSummarises(init, name);
      var before := Fold(EmptyTable, init);
      var after := Fold(EmptyTable, lines);
      assert after == Step(before, last);
      var vs := Values(init, name);
      match ParseRecord(last) {
        case Err(_) =>
          assert after == before;
          assert Values(lines, name) == vs;
        case Ok(rec) =>
          assert after == UpdateStats(before, rec.name, rec.value);
          if rec.name == name {
            assert Values(lines, name) == vs + [rec.value];
            match Lookup(before, name) {
              case None => FirstSummarises(rec.value);
              case Some(s) => AddSummarises(s, vs, rec.value);
            }
          } else {
            UpdateOthersUnchanged(before, rec.name, rec.value, name);
            assert Values(lines, name) == vs;
          }
      }
    }
  }

  /** Every entry in a folded table is valid, so its mean lies between its bounds. */
  lemma FoldAverage(lines: seq<string>, name: string)
    requires Lookup(Fold(EmptyTable, lines), name).Some?
    ensures var s := Lookup(Fold(EmptyTable, lines), name).value;
      s.count >= 1 && s.min <= Average(s) <= s.max
  {
    FoldSummarises(lines, name);
    var s := Lookup(Fold(EmptyTable, lines), name).value;
    SummaryIsValid(s, Values(lines, name));
    AverageBetweenBounds(s);
  }

  // ---------------------------------------------------------------------------
  // The batch worker as written: a blank name reaches the table update
  // ---------------------------------------------------------------------------

  /** The line passes the unchecked parser with an empty name. */
  predicate BlankName(line: string) {
    ParseLine(line).Ok? && ParseLine(line).value.name == []
  }

  /** How many lines of `lines` have a blank name. */
  function CountBlankNames(lines: seq<string>): nat {
    if |lines| == 0 then 0
    else CountBlankNames(lines[..|lines| - 1]) + (if BlankName(lines[|lines| - 1]) then 1 else 0)
  }

  /**
    One line as the worker as written handles it: the table update takes the
    first character of the name, which fails for an empty name and ends the
    run. `None` stands for that failure.
   */
  function StepAsWritten(t: Table, line: string): Option<Table> {
    match ParseLine(line)
    case Err(_) => Some(t)
    case Ok(rec) =>
      if rec.name == [] then None
      else Some(UpdateStats(t, rec.name, rec.value))
  }

  /** A line fails in the worker as written exactly when its name is blank; otherwise it is recorded as by the checked worker. */
  lemma StepAsWrittenAgrees(t: Table, line: string)
    ensures StepAsWritten(t, line).None? <==> BlankName(line)
    ensures StepAsWritten(t, line).Some? ==> StepAsWritten(t, line).value == Step(t, line)
  {
  }

  /** The worker as written, using the unchecked parser; `None` when the run fails. */
  function ProcessBatchAsWritten(t: Table, lines: seq<string>): Option<Table> {
    if |lines| == 0 then Some(t)
    else
      match ProcessBatchAsWritten(t, lines[..|lines| - 1])
      case None => None
      case Some(before) => StepAsWritten(before, lines[|lines| - 1])
  }

  /**
    The worker as written fails exactly when some line has a blank name, and
    otherwise computes the same table as the checked worker.
   */
  lemma {:induction false} AsWrittenAgrees(t: Table, lines: seq<string>)
    ensures ProcessBatchAsWritten(t, lines).None? <==> CountBlankNames(lines) > 0
    ensures ProcessBatchAsWritten(t, lines).Some? ==> ProcessBatchAsWritten(t, lines).value == Fold(t, lines)
  {
    if |lines| > 0 {
      var init, last := lines[..|lines| - 1], lines[|lines| - 1];
      AsWrittenAgrees(t, init);
      match ProcessBatchAsWritten(t, init) {
        case None =>
        case Some(before) => StepAsWrittenAgrees(before, last);
      }
    }
  }

  /**
    One line with a blank name is enough to end a run as written, while the
    checked worker skips that line and keeps what came before.
   */
  lemma BlankLineEndsTheRun(t: Table, good: seq<string>, blank: string)
    requires BlankName(blank)
    ensures ProcessBatchAsWritten(t, good + [blank]).None?
    ensures Fold(t, good + [blank]) == Fold(t, good)
  {
    var lines := good + [blank];
    assert lines[..|lines| - 1] == good;
    AsWrittenAgrees(t, lines);
  }
}
