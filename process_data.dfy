/** The bounded row sampler of `process_data.py`: count the data rows of a
    delimited text file, choose which of them to skip, re-read the file
    without them, and concatenate the samples of two files into one table.

    A file is the sequence of its lines; line 0 is the header and line `i`
    (1 <= i) is data row `i`. The random draw of `random.sample` is passed in
    as `draw`, and its contract is a precondition. */
module ProcessData {
  import opened Sorting

  type Line = string

  /** The `n_samples` that the script passes for both files (and the default). */
  const ScriptSamples: int := 20000

  datatype Option<T> = None | Some(value: T)

  /** The exceptions that the routine and the script can raise. */
  datatype Error =
    | SampleLargerThanPopulation  // ValueError from random.sample
    | EmptyData                   // EmptyDataError from read_csv on an empty file
    | NoObjectsToConcatenate      // ValueError from pd.concat on an empty list
    | AllObjectsNone              // ValueError from pd.concat when every part is None

  datatype Result<T> = Ok(value: T) | Err(error: Error)

  /** A data frame: the header line, the row labels and the data lines. */
  datatype Frame = Frame(header: Line, index: seq<int>, rows: seq<Line>)

  /** What `procesar_archivo_crudo` ends in: `None` for a missing path, an
      exception, or a sampled frame. */
  datatype Outcome = Missing | Failed(error: Error) | Sampled(frame: Frame)

  function Min(a: int, b: int): int { if a <= b then a else b }

  function Max(a: int, b: int): int { if a <= b then b else a }

  /** The labels 0, 1, ..., n - 1. */
  function Range(n: nat): seq<int> { seq(n, k => k) }

  /** The frame carries a fresh contiguous index 0 .. |rows| - 1. */
  predicate FreshIndex(f: Frame) {
    |f.index| == |f.rows| && forall k :: 0 <= k < |f.index| ==> f.index[k] == k
  }

  // ---------------------------------------------------------------------
  // 1. Row counter
  // ---------------------------------------------------------------------

  /** `sum(1 for line in f)`: one for every line of the file. */
  function CountLines(lines: seq<Line>): nat {
    if lines == [] then 0 else 1 + CountLines(lines[1..])
  }

  lemma {:induction false} CountLinesIsLength(lines: seq<Line>)
    ensures CountLines(lines) == |lines|
  {
    if lines != [] {
      CountLinesIsLength(lines[1..]);
    }
  }

  /** `total_rows`: the number of lines less one for the header; -1 for an
      empty file. */
  function TotalRows(lines: seq<Line>): (total: int)
    ensures total == |lines| - 1
    ensures total >= -1
  {
    CountLinesIsLength(lines);
    CountLines(lines) - 1
  }

  // ---------------------------------------------------------------------
  // 2. Skip-set generator
  // ---------------------------------------------------------------------

  /** `len(range(1, total + 1))`. */
  function PopulationSize(total: int): nat {
    Max(0, total)
  }

  /** `random.sample(population, k)` returns instead of raising ValueError. */
  predicate SampleIsLegal(total: int, k: int) {
    0 <= k <= PopulationSize(total)
  }

  /** `draw` is a possible result of `random.sample(range(1, total + 1), k)`:
      k distinct members of the range. */
  predicate IsSampleOf(draw: seq<int>, total: int, k: int) {
    && |draw| == k
    && Distinct(draw)
    && forall i :: 0 <= i < |draw| ==> 1 <= draw[i] <= total
  }

  /** Whenever the routine reaches `random.sample` and the call returns, its
      result is `draw`. */
  predicate DrawFits(total: int, nSamples: int, draw: seq<int>) {
    total >= nSamples && SampleIsLegal(total, total - nSamples) ==>
      IsSampleOf(draw, total, total - nSamples)
  }

  /** The skip list of process_data.py:23-30. */
  function ChooseSkipRows(total: int, nSamples: int, draw: seq<int>): (r: Result<seq<int>>)
    requires DrawFits(total, nSamples, draw)
    ensures r.Err? <==> total >= nSamples && total - nSamples > PopulationSize(total)
    ensures r.Err? ==> r.error == SampleLargerThanPopulation
    ensures r.Ok? ==> |r.value| == (if total < nSamples then 0 else total - nSamples)
    ensures r.Ok? ==> StrictlyAscending(r.value)
    ensures r.Ok? ==> forall i :: 0 <= i < |r.value| ==> 1 <= r.value[i] <= total
    ensures r.Ok? ==> 0 !in r.value
    ensures r.Ok? && total >= nSamples ==> multiset(r.value) == multiset(draw)
  {
    if total < nSamples then Ok([])
    else
      var k := total - nSamples;
      if !SampleIsLegal(total, k) then Err(SampleLargerThanPopulation)
      else
        SortDistinct(draw);
        SortBounds(draw, 1, total);
        assert |Sort(draw)| == |multiset(Sort(draw))| == |multiset(draw)| == |draw|;
        Ok(Sort(draw))
  }

  /** Some draw satisfies the contract of `random.sample` whenever the call
      is legal: the first k members of the range. */
  lemma SampleExists(total: int, k: int)
    requires SampleIsLegal(total, k)
    ensures IsSampleOf(seq(k, i => i + 1), total, k)
  {
  }

  // ---------------------------------------------------------------------
  // 3. Selective reader
  // ---------------------------------------------------------------------

  /** The lines from `i` on whose line number is not in `skip`, in file
      order: what `read_csv(..., skiprows=skip)` keeps of them. */
  function Select(lines: seq<Line>, i: nat, skip: seq<int>): seq<Line>
    decreases |lines| - i
  {
    if i >= |lines| then []
    else (if i in skip then [] else [lines[i]]) + Select(lines, i + 1, skip)
  }

  /** The line numbers in [i, end) that are not in `skip`, ascending. */
  function KeptPositions(i: nat, end: nat, skip: seq<int>): seq<int>
    decreases end - i
  {
    if i >= end then []
    else (if i in skip then [] else [i]) + KeptPositions(i + 1, end, skip)
  }

  /** `pd.read_csv(path, skiprows=skip)`: the header and the kept data lines
      under a fresh index; an empty file raises EmptyDataError. Only skip
      lists that keep line 0 as the header are covered. */
  function ReadCsv(lines: seq<Line>, skip: seq<int>): (r: Result<Frame>)
    requires 0 !in skip
    ensures r.Err? <==> lines == []
    ensures r.Err? ==> r.error == EmptyData
    ensures r.Ok? ==> r.value.header == lines[0] && FreshIndex(r.value)
  {
    if lines == [] then Err(EmptyData)
    else
      var rows := Select(lines, 1, skip);
      Ok(Frame(lines[0], Range(|rows|), rows))
  }

  /** The selected lines are exactly the lines at the kept positions. */
  lemma {:induction false} SelectAtKeptPositions(lines: seq<Line>, i: nat, skip: seq<int>)
    ensures |Select(lines, i, skip)| == |KeptPositions(i, |lines|, skip)|
    ensures forall k :: 0 <= k < |Select(lines, i, skip)| ==>
      && 0 <= KeptPositions(i, |lines|, skip)[k] < |lines|
      && Select(lines, i, skip)[k] == lines[KeptPositions(i, |lines|, skip)[k]]
    decreases |lines| - i
  {
    if i < |lines| {
      SelectAtKeptPositions(lines, i + 1, skip);
    }
  }

  /** The kept positions are strictly ascending (so pairwise distinct), lie
      in [i, end), avoid `skip`, and include every such line number not in
      `skip`. */
  lemma {:induction false} KeptPositionsExact(i: nat, end: nat, skip: seq<int>)
    ensures StrictlyAscending(KeptPositions(i, end, skip))
    ensures forall k :: 0 <= k < |KeptPositions(i, end, skip)| ==>
      i <= KeptPositions(i, end, skip)[k] < end && KeptPositions(i, end, skip)[k] !in skip
    ensures forall j :: i <= j < end && j !in skip ==> j in KeptPositions(i, end, skip)
    decreases end - i
  {
    if i < end {
      KeptPositionsExact(i + 1, end, skip);
    }
  }

  /** Only membership in [i, end) matters to the kept positions. */
  lemma {:induction false} KeptPositionsCongruent(i: nat, end: nat, s1: seq<int>, s2: seq<int>)
    requires forall j :: i <= j < end ==> (j in s1 <==> j in s2)
    ensures KeptPositions(i, end, s1) == KeptPositions(i, end, s2)
    decreases end - i
  {
    if i < end {
      KeptPositionsCongruent(i + 1, end, s1, s2);
    }
  }

  /** Skipping a strictly ascending list of line numbers inside [i, end)
      removes exactly one line per entry. */
  lemma {:induction false} KeptPositionsCount(i: nat, end: nat, skip: seq<int>)
    requires i <= end
    requires StrictlyAscending(skip)
    requires forall k :: 0 <= k < |skip| ==> i <= skip[k] < end
    ensures |KeptPositions(i, end, skip)| == end - i - |skip|
    decreases end - i
  {
    if i < end {
      if skip != [] && skip[0] == i {
        var rest := skip[1..];
        forall j | i + 1 <= j < end ensures j in skip <==> j in rest {
          if j in skip {
            var k :| 0 <= k < |skip| && skip[k] == j;
            assert k != 0;
            assert rest[k - 1] == j;
          }
        }
        KeptPositionsCongruent(i + 1, end, skip, rest);
        KeptPositionsCount(i + 1, end, rest);
      } else {
        assert i !in skip by {
          forall k | 0 <= k < |skip| ensures skip[k] != i {
            assert skip[0] <= skip[k];
          }
        }
        forall k | 0 <= k < |skip| ensures i + 1 <= skip[k] {
          assert skip[0] <= skip[k];
        }
        KeptPositionsCount(i + 1, end, skip);
      }
    } else {
      if |skip| > 0 {
        assert false;
      }
    }
  }

  /** With nothing to skip from line `i` on, every line from `i` on is kept. */
  lemma {:induction false} SelectNothingSkipped(lines: seq<Line>, i: nat, skip: seq<int>)
    requires i <= |lines|
    requires forall j :: i <= j < |lines| ==> j !in skip
    ensures Select(lines, i, skip) == lines[i..]
    decreases |lines| - i
  {
    if i < |lines| {
      SelectNothingSkipped(lines, i + 1, skip);
      assert lines[i..] == [lines[i]] + lines[i + 1..];
    }
  }

  // ---------------------------------------------------------------------
  // The routine
  // ---------------------------------------------------------------------

  /** `procesar_archivo_crudo(input_path, n_samples)`: `file` is `None`
      when the path does not exist, else the lines of the file. */
  function ProcessRawFile(file: Option<seq<Line>>, nSamples: int, draw: seq<int>): (r: Outcome)
    requires file.Some? ==> DrawFits(TotalRows(file.value), nSamples, draw)
    ensures r.Missing? <==> file.None?
    ensures r.Sampled? <==> file.Some? && |file.value| >= 1 && nSamples >= 0
    ensures r.Failed? && file.value == [] && nSamples >= -1 ==> r.error == EmptyData
    ensures r.Failed? && (file.value != [] || nSamples < -1) ==>
      r.error == SampleLargerThanPopulation
  {
    match file
    case None => Missing
    case Some(lines) =>
      match ChooseSkipRows(TotalRows(lines), nSamples, draw)
      case Err(e) => Failed(e)
      case Ok(skip) =>
        match ReadCsv(lines, skip)
        case Err(e) => Failed(e)
        case Ok(frame) => Sampled(frame)
  }

  /** The skip list the routine hands to `read_csv` for an existing file. */
  lemma SkipListOf(lines: seq<Line>, nSamples: int, draw: seq<int>)
    returns (skip: seq<int>)
    requires DrawFits(TotalRows(lines), nSamples, draw)
    requires |lines| >= 1 && nSamples >= 0
    ensures ChooseSkipRows(TotalRows(lines), nSamples, draw) == Ok(skip)
    ensures ProcessRawFile(Some(lines), nSamples, draw)
      == Sampled(ReadCsv(lines, skip).value)
  {
    skip := ChooseSkipRows(TotalRows(lines), nSamples, draw).value;
  }

  /** The sample has `min(total_rows, n_samples)` rows, keeps the header and
      carries a fresh index. */
  lemma SampleSize(lines: seq<Line>, nSamples: int, draw: seq<int>)
    requires DrawFits(TotalRows(lines), nSamples, draw)
    requires |lines| >= 1 && nSamples >= 0
    ensures ProcessRawFile(Some(lines), nSamples, draw).Sampled?
    ensures var f := ProcessRawFile(Some(lines), nSamples, draw).frame;
      |f.rows| == Min(TotalRows(lines), nSamples) && f.header == lines[0] && FreshIndex(f)
  {
    var skip := SkipListOf(lines, nSamples, draw);
    SelectAtKeptPositions(lines, 1, skip);
    KeptPositionsCount(1, |lines|, skip);
  }

  /** A file with no more data rows than requested is copied whole, in order
      (for fewer rows by the first branch, for exactly as many by an empty
      draw in the second). */
  lemma SmallFileCopiedWhole(lines: seq<Line>, nSamples: int, draw: seq<int>)
    requires DrawFits(TotalRows(lines), nSamples, draw)
    requires |lines| >= 1 && TotalRows(lines) <= nSamples
    ensures ChooseSkipRows(TotalRows(lines), nSamples, draw) == Ok([])
    ensures ProcessRawFile(Some(lines), nSamples, draw).Sampled?
    ensures ProcessRawFile(Some(lines), nSamples, draw).frame.rows == lines[1..]
  {
    var skip := SkipListOf(lines, nSamples, draw);
    assert skip == [];
    SelectNothingSkipped(lines, 1, skip);
  }

  /** Every sampled row is a data line of the file that was not skipped, the
      rows come from distinct positions in file order, and every data line
      that was not skipped is sampled. */
  lemma SampleRowsFromSource(lines: seq<Line>, nSamples: int, draw: seq<int>)
    returns (skip: seq<int>, positions: seq<int>)
    requires DrawFits(TotalRows(lines), nSamples, draw)
    requires |lines| >= 1 && nSamples >= 0
    ensures ChooseSkipRows(TotalRows(lines), nSamples, draw) == Ok(skip)
    ensures var f := ProcessRawFile(Some(lines), nSamples, draw).frame;
      && |positions| == |f.rows|
      && StrictlyAscending(positions)
      && (forall k :: 0 <= k < |positions| ==>
            1 <= positions[k] < |lines| && positions[k] !in skip && f.rows[k] == lines[positions[k]])
      && (forall j :: 1 <= j < |lines| && j !in skip ==> j in positions)
  {
    skip := SkipListOf(lines, nSamples, draw);
    positions := KeptPositions(1, |lines|, skip);
    SelectAtKeptPositions(lines, 1, skip);
    KeptPositionsExact(1, |lines|, skip);
  }

  // ---------------------------------------------------------------------
  // 4. Combiner
  // ---------------------------------------------------------------------

  /** The frames among `parts`, in order; `pd.concat` drops `None` entries. */
  function Present(parts: seq<Option<Frame>>): seq<Frame> {
    if parts == [] then []
    else (if parts[0].Some? then [parts[0].value] else []) + Present(parts[1..])
  }

  lemma PresentPair(x: Option<Frame>, y: Option<Frame>)
    ensures Present([x, y]) == (if x.Some? then [x.value] else []) + (if y.Some? then [y.value] else [])
  {
    var parts := [x, y];
    assert parts[1..] == [y];
    assert parts[1..][1..] == [];
    assert Present([y]) == (if y.Some? then [y.value] else []) + Present([]);
  }

  /** The rows of all frames, one frame after the other. */
  function AllRows(frames: seq<Frame>): seq<Line> {
    if frames == [] then [] else frames[0].rows + AllRows(frames[1..])
  }

  /** The sum of the frames' lengths. */
  function RowCount(frames: seq<Frame>): nat {
    if frames == [] then 0 else |frames[0].rows| + RowCount(frames[1..])
  }

  lemma {:induction false} AllRowsLength(frames: seq<Frame>)
    ensures |AllRows(frames)| == RowCount(frames)
  {
    if frames != [] {
      AllRowsLength(frames[1..]);
    }
  }

  /** `pd.concat(parts, ignore_index=True)`. The header of the first frame
      stands for the combined columns. */
  function Concat(parts: seq<Option<Frame>>): (r: Result<Frame>)
    ensures parts == [] ==> r == Err(NoObjectsToConcatenate)
    ensures parts != [] ==> (r.Err? <==> Present(parts) == [])
    ensures parts != [] && r.Err? ==> r.error == AllObjectsNone
    ensures r.Ok? ==> FreshIndex(r.value) && |r.value.rows| == RowCount(Present(parts))
  {
    if parts == [] then Err(NoObjectsToConcatenate)
    else
      var frames := Present(parts);
      if frames == [] then Err(AllObjectsNone)
      else
        var rows := AllRows(frames);
        AllRowsLength(frames);
        Ok(Frame(frames[0].header, Range(|rows|), rows))
  }

  /** Two frames concatenate to the rows of the first followed by those of
      the second, relabelled 0 .. n - 1. */
  lemma ConcatPair(a: Frame, b: Frame)
    ensures Concat([Some(a), Some(b)]).Ok?
    ensures var f := Concat([Some(a), Some(b)]).value;
      && |f.rows| == |a.rows| + |b.rows|
      && f.rows[..|a.rows|] == a.rows && f.rows[|a.rows|..] == b.rows
      && FreshIndex(f)
  {
    PresentPair(Some(a), Some(b));
    var frames := [a, b];
    assert frames[1..] == [b];
    assert AllRows([b]) == b.rows + AllRows([]);
    assert AllRows(frames) == a.rows + b.rows;
  }

  /** A missing sample is dropped from the concatenation, on either side. */
  lemma ConcatDropsMissing(b: Frame)
    ensures Concat([None, Some(b)]).Ok? && Concat([None, Some(b)]).value.rows == b.rows
    ensures Concat([Some(b), None]).Ok? && Concat([Some(b), None]).value.rows == b.rows
    ensures Concat([None, None]) == Err(AllObjectsNone)
  {
    PresentPair(None, Some(b));
    assert Present([None, Some(b)]) == [b];
    PresentPair(Some(b), None);
    assert Present([Some(b), None]) == [b];
    PresentPair(None, None);
    assert AllRows([b]) == b.rows + AllRows([]);
  }

  // ---------------------------------------------------------------------
  // The script
  // ---------------------------------------------------------------------

  /** The sample as the caller sees it: the frame, or `None`. */
  function AsReturned(o: Outcome): Option<Frame>
    requires !o.Failed?
  {
    if o.Sampled? then Some(o.frame) else None
  }

  /** The `__main__` block: sample both files with n_samples = 20000 (an
      exception in either call ends the script) and concatenate the two
      results in order. */
  function RunScript(accepted: Option<seq<Line>>, rejected: Option<seq<Line>>,
                     drawAccepted: seq<int>, drawRejected: seq<int>): (r: Result<Frame>)
    requires accepted.Some? ==> DrawFits(TotalRows(accepted.value), ScriptSamples, drawAccepted)
    requires rejected.Some? ==> DrawFits(TotalRows(rejected.value), ScriptSamples, drawRejected)
    ensures r.Err? <==>
      || (accepted.Some? && accepted.value == [])
      || (rejected.Some? && rejected.value == [])
      || (accepted.None? && rejected.None?)
    ensures r.Ok? ==> FreshIndex(r.value)
  {
    var acc := ProcessRawFile(accepted, ScriptSamples, drawAccepted);
    if acc.Failed? then Err(acc.error)
    else
      var rej := ProcessRawFile(rejected, ScriptSamples, drawRejected);
      if rej.Failed? then Err(rej.error)
      else
        PresentPair(AsReturned(acc), AsReturned(rej));
        Concat([AsReturned(acc), AsReturned(rej)])
  }

  /** With both files present and non-empty, the combined table has
      min(rows, 20000) rows of the accepted file followed by min(rows, 20000)
      of the rejected one, under a contiguous index. */
  lemma ScriptCombinedSize(accepted: seq<Line>, rejected: seq<Line>,
                           drawAccepted: seq<int>, drawRejected: seq<int>)
    requires DrawFits(TotalRows(accepted), ScriptSamples, drawAccepted)
    requires DrawFits(TotalRows(rejected), ScriptSamples, drawRejected)
    requires |accepted| >= 1 && |rejected| >= 1
    ensures var r := RunScript(Some(accepted), Some(rejected), drawAccepted, drawRejected);
      && r.Ok?
      && |r.value.rows| == Min(TotalRows(accepted), ScriptSamples) + Min(TotalRows(rejected), ScriptSamples)
      && r.value.rows == ProcessRawFile(Some(accepted), ScriptSamples, drawAccepted).frame.rows
                       + ProcessRawFile(Some(rejected), ScriptSamples, drawRejected).frame.rows
      && FreshIndex(r.value)
  {
    SampleSize(accepted, ScriptSamples, drawAccepted);
    SampleSize(rejected, ScriptSamples, drawRejected);
    var a := ProcessRawFile(Some(accepted), ScriptSamples, drawAccepted).frame;
    var b := ProcessRawFile(Some(rejected), ScriptSamples, drawRejected).frame;
    ConcatPair(a, b);
    var f := Concat([Some(a), Some(b)]).value;
    assert f.rows == f.rows[..|a.rows|] + f.rows[|a.rows|..];
  }
}
