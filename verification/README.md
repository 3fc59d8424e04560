# Per-name statistics aggregator — verified model

The program reads a file of `name;value` lines. It cuts the lines into
batches of `batchSize` and hands each batch to a worker goroutine. The
worker parses every line and folds the value into a shared two-level table:

- the outer key is the lower-cased first letter of the name (the bucket);
- the inner key is the full name;
- the value is the name's running `{min, max, sum, count}`.

The goroutines only produce the right table if two facts hold:

- the fold does not depend on the order of the lines;
- the batching neither loses nor duplicates a line.

This project models the sequential pieces as pure Dafny functions and
proves both facts. It also proves the per-entry invariants and the link
between each entry and the lines that produced it.

Modules, in dependency order:

- `Wrappers`: `Option` and `Result`.
- `Text`: finding a character, splitting on the `;` separator and its
  inverse `Join`, trimming white space, and ASCII lower-casing.
- `Numbers`: the number syntax of the value field (sign, digits, point,
  digits), read as an exact `real`.
- `Parser`: `ParseLine`, the line parser as written, and `ParseRecord`,
  the same parser with the empty-name check (see Findings).
- `Stats`: `NameStats`, its first observation and widening, the entry
  invariant, and the reference summary of a list of values.
- `Table`: the two-level table and `UpdateStats`.
- `Multisets`: one rearrangement fact shared by the order proofs.
- `Worker`: the batch worker (`ProcessBatch`), the fold it computes, order
  independence, and the reference definition `Values` of what each name
  receives.
- `Batching`: the batching loop (`Partition`) and its reference definition
  `Chunks`.
- `Coordinator`: a whole run, batch by batch. The table does not depend on
  the batch size, the batch order or the interleaving of updates.

Values are exact rationals (`real`), so `sum` is associative and
commutative. The program uses `float64`, where it is not. The fold
defines the last line as applied last. An update that happens "in some
interleaving" is modelled as a fold over some rearrangement of the input
lines.

## Model

| member | source | states |
|---|---|---|
| Text.Split | main.go:49 | splitting on the separator gives one more part than there are separators, no part contains it, and joining the parts gives the line back |
| Text.SplitJoin | main.go:49 | splitting the join of separator-free parts gives back exactly those parts |
| Text.TrimSpace | main.go:55-56 | the trimmed field is the infix after the whole leading white-space run, with only white space after it, and it neither starts nor ends with white space |
| Text.TrimSpaceEmpty | main.go:55 | a field trims to empty exactly when it is all white space |
| Text.TrimSpaceIdempotent | main.go:55-56 | trimming a trimmed field changes nothing |
| Text.ToLower | main.go:70 | upper-case ASCII letters map to lower case, every other character is kept, and the result is never upper case |
| Numbers.ParseNum | main.go:59-62 | a number is accepted exactly when it is an optional leading sign followed by digits and at most one point, with at least one digit |
| Numbers.ReadPointed | main.go:59-62 | every optional sign, digits, point and digits with at least one digit is accepted, and reads as the whole digits plus the fractional digits over the matching power of ten, negated under `-` |
| Numbers.ReadWhole | main.go:59-62 | every optional sign followed by one or more digits is accepted and reads as the digits' value, negated under `-` |
| Numbers.ParseFormatTenths | main.go:59 | every value written with one decimal digit, either sign, reads back as exactly that value |
| Parser.ParseLine | main.go:47-65 | the line is rejected as malformed exactly when it does not hold exactly one separator; on success the name is the trimmed left field and the value is the reading of the trimmed right field; when that reading fails the error carries the trimmed right field; an empty name is never rejected |
| Parser.SplitTwoFields | main.go:49-50 | a line with exactly one separator splits into the text before it and the text after it |
| Parser.ParseJoinedFields | main.go:49-64 | a line made of two separator-free fields parses field by field: invalid-number error or a record of the trimmed name and the value |
| Parser.ParseCleanFields | main.go:49-64 | for fields with no surrounding white space, the line parses to those fields unchanged |
| Parser.ExampleValid | main.go:47-65 | `Alice;10.0` parses to name `Alice` and value 10 |
| Parser.ExampleMalformed | main.go:49-52 | `bad-line` is rejected as malformed |
| Parser.ExampleNotANumber | main.go:59-62 | `Carol;abc` is rejected with invalid number `abc` |
| Parser.ExampleBlankName | main.go:55-64 | ` ;10` parses with the empty name, and the checked parser rejects it with an empty-name error |
| Parser.ParseRecord | main.go:55-70 | a record is accepted exactly when the parser as written accepts it with a non-empty name, and then unchanged; other failures are passed through |
| Parser.EmptyNameIffBlank | main.go:55-70 | a line is rejected for its name exactly when it has one separator, an all-white-space name field and a valid number |
| Stats.First | main.go:95-96 | the first observation `v` gives min = max = sum = `v`, count 1, and a valid entry |
| Stats.Add | main.go:97-107 | a later observation adds one to the count and `v` to the sum; the new bounds enclose both the old bounds and `v`, and each is either the old bound or `v` |
| Stats.AddValid | main.go:99-106 | widening keeps count >= 1, min <= max and count*min <= sum <= count*max |
| Stats.AddCommutes | main.go:99-106 | two observations may be added in either order |
| Stats.FirstCommutes | main.go:95-106 | starting from either of two observations gives the same entry |
| Stats.AverageBetweenBounds | main.go:181 | the mean sum/count of a valid entry lies between min and max |
| Stats.AddSummarises | main.go:99-106 | widening the summary of a list by `v` gives the summary of the list with `v` appended |
| Stats.FirstSummarises | main.go:95-96 | the first entry summarises the one-value list |
| Stats.SummaryUnique | main.go:95-107 | a list of values has at most one summary |
| Stats.SummaryIsValid | main.go:95-107 | a summary of a non-empty list satisfies the entry invariant |
| Table.UpdateStats | main.go:68-111 | afterwards the name's entry is its first observation if it had none, and otherwise the old entry widened by the value |
| Table.UpdateOthersUnchanged | main.go:77-110 | every other name's entry is unchanged |
| Table.UpdateWritesOneBucket | main.go:77-110 | buckets are only added, never removed; other buckets are untouched; names in the bucket are only added; other names in the bucket keep their entries |
| Table.UpdateCreatesBucket | main.go:78-96 | a missing bucket is created holding just the new name with its first entry |
| Table.UpdateValid | main.go:92-110 | an update keeps every name in its own bucket, every entry valid and no bucket empty |
| Table.LookupDetermines | main.go:26 | two tables that keep the invariant and agree on every name's entry are equal |
| Table.UpdateCommutes | main.go:92-110 | two updates give the same table in either order, for the same name, the same bucket or different buckets |
| Worker.ProcessBatch | main.go:33-44 | the worker's loop computes the in-order fold of its batch, with the checked parser that skips a blank-name line |
| Worker.SkipFailedLine | main.go:36-41 | a line that does not parse leaves the table unchanged |
| Worker.FoldWellFormed | main.go:35-43 | folding lines into a table that keeps the invariant keeps it |
| Worker.FoldAppend | main.go:35-43 | folding a concatenation folds the first part, then the second |
| Worker.StepCommutes | main.go:35-43 | two lines may be recorded in either order |
| Worker.ApplyCommutes | main.go:35-43 | recording two parse outcomes gives the same table in either order, whether each is a record or a failure |
| Worker.StepThenFold | main.go:35-43 | recording one line before a list of lines gives the same table as recording it after them |
| Worker.FoldPermutation | main.go:35-43 | any rearrangement of the lines, with the same multiplicities, gives the same table |
| Worker.FoldSummarises | main.go:92-107 | after folding, a name has an entry exactly when some line parses to it; the entry's count is the number of those lines, its sum is their total, and its bounds are the smallest and largest of their values |
| Worker.FoldAverage | main.go:181 | every entry of a folded table has count >= 1 and a mean between its bounds |
| Worker.StepAsWrittenAgrees | main.go:36-70 | with the parser as written, a line fails the worker exactly when its name is blank; any other line is recorded as by the checked worker |
| Worker.AsWrittenAgrees | main.go:33-70 | the worker as written fails exactly when some line has a blank name, and otherwise computes the checked worker's table |
| Worker.BlankLineEndsTheRun | main.go:70 | one blank-name line after any lines makes the worker as written fail, while the checked worker keeps the table of the earlier lines |
| Batching.ConcatPermutation | main.go:145-163 | rearranging batches rearranges their lines |
| Batching.ChunksConcat | main.go:145-163 | the reference batches, concatenated in order, are the input lines |
| Batching.OneBatchWithoutPositiveSize | main.go:150 | without a positive batch size, all lines form a single batch |
| Batching.Partition | main.go:141-163 | the batching loop dispatches exactly the reference batches, and together they are the input lines in order |
| Batching.ChunksShape | main.go:145-163 | the batches concatenate to the input; none is empty; with a positive size every batch but the last has exactly `batchSize` lines; otherwise there is at most one batch |
| Batching.ChunkSizes | main.go:145-163 | with a positive size every reference batch but the last has exactly `batchSize` lines, and the last has between one and `batchSize` |
| Coordinator.FoldBatchesConcat | main.go:145-163 | processing batch by batch is folding their concatenated lines |
| Coordinator.BatchedEqualsFlat | main.go:141-163 | the batched run equals folding the whole line list |
| Coordinator.BatchSizeInvariance | main.go:150 | the batch size does not change the table |
| Coordinator.AnyBatchOrder | main.go:151-166 | batches processed in any order give the table of the input folded in order |
| Coordinator.AnyInterleaving | main.go:151-166 | any schedule that records each line exactly once gives the batched run's table |
| Coordinator.Run | main.go:141-166 | the whole run, with the checked parser that skips a blank-name line, returns the fold of the input lines; every entry is valid and summarises the values of the lines that parse to its name |
| Coordinator.FoldedTable | main.go:92-110 | the table folded from an empty one keeps the invariant and summarises every name's values |
| Coordinator.TableDeterminedByValues | main.go:92-110 | two inputs that give every name the same values give the same table |

## Left out

- Goroutines, the wait group and the mutexes (main.go:27-30, 73-89,
  151-152, 161-166) are not modelled as threads. Each table update is
  atomic under the global mutex, so a run is modelled as a fold over some
  rearrangement of the lines (`Coordinator.AnyInterleaving`).
- Opening the file, the line scanner, skipping the two header lines and
  reporting read errors (main.go:122-139, 168-170) are I/O. `Run` takes the
  lines that follow the header.
- Flag parsing (main.go:115-119) is left out. The batch size is a
  parameter.
- `printResults` and its formatting (main.go:177-185) is output. Only the
  mean `sum / count` is modelled, as `Stats.Average`.
- The "Error parsing line" messages and the error texts (main.go:39, 51, 61)
  are left out. Failures are the `ParseError` variants.
- Numbers.ParseNum: `float64` and the full syntax of `strconv.ParseFloat`
  are not modelled: exponents, hexadecimal floats, `Inf`, `NaN`,
  underscores between digits (`1_000` reads as 1000 in the program and
  fails here), and the range error for out-of-range values. Values are exact rationals, so sums
  never round.
- Text.TrimSpace: only ASCII white space is trimmed. The Unicode spaces
  that `strings.TrimSpace` also removes are not modelled.
- Text.ToLower: only ASCII letters are lower-cased. Other Unicode letters,
  which `unicode.ToLower` also maps, are not.
- Characters are Unicode scalar values. Taking the first character of a
  name stands for taking its first rune.
- `count` is an unbounded `nat`. The source's `int` wraps after 2^31-1
  lines for one name on 32-bit targets and after 2^63-1 on 64-bit targets.
- Table.UpdateStats: its contract states only the updated name's entry.
  That nothing else changes is stated separately by
  `Table.UpdateOthersUnchanged` and `Table.UpdateWritesOneBucket`.
- Worker.ProcessBatch: its contract is the fold of its batch. That the
  fold keeps the table invariant is `Worker.FoldWellFormed`.
- Batching.Partition: its contract gives the reference batches and their
  concatenation. The batch sizes are stated by `Batching.ChunksShape`.
- A blank name is meant to be rejected like any other line that does not
  parse. The code does not check for it. `Parser.ParseLine` follows the
  code; the check is `Parser.ParseRecord`, under Findings.

## Findings

| source | as written | input that shows it | evidently intended | confidence | as-written member | corrected member |
|---|---|---|---|---|---|---|
| main.go:55-70 | `parseLine` accepts a line whose name field is only white space and returns the empty name; `updateStats` then takes `[]rune(name)[0]`, which is out of range for the empty name, so the worker goroutine panics and the whole run ends | the line ` ;10` | the line is rejected like any other unparsable line and the other lines are still aggregated | not executed | Parser.ExampleBlankName, Worker.AsWrittenAgrees, Worker.BlankLineEndsTheRun | Parser.ParseRecord, Parser.EmptyNameIffBlank, Worker.FoldSummarises |

In the model, `Worker.ProcessBatchAsWritten` stands for the worker as
written: `None` marks the run ended by the panic. Everything else uses the
checked parser, `Parser.ParseRecord`.
