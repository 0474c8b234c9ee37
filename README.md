# Bounded row sampler

A Dafny model of the sampler in `process_data.py`. The routine `procesar_archivo_crudo(input_path, n_samples)`
takes a fixed-size random sample of the data rows of a large CSV file without loading the whole file:

1. It counts the lines and subtracts one for the header.
2. It picks the data rows to skip. The skip list is empty when the file has fewer rows than requested.
   Otherwise it holds `total_rows - n_samples` distinct line numbers drawn from `1 .. total_rows`, sorted.
3. It re-reads the file with `read_csv(skiprows=...)`, keeping the header and every data line that is not skipped, in file order.

The `__main__` block samples two files with `n_samples = 20000` and concatenates the two samples.
The combined table gets a fresh index 0 .. n-1.

Files:

- `sorting.dfy` (module `Sorting`) models Python's `sorted` on integers as insertion sort.
  It proves that the result is ascending and a permutation of the input.
  It also proves that sorting a duplicate-free draw gives a strictly ascending list.
- `process_data.dfy` (module `ProcessData`) models the row counter, the skip-list choice, the selective read, the routine and the script.

Modelling choices:

- A file is `Option<seq<Line>>`. `None` means the path does not exist.
  Line 0 is the header. Line `i >= 1` is data row `i`, which is the numbering `skiprows` uses.
- `random.sample` becomes the parameter `draw`. Its contract is a precondition (`DrawFits`): whenever the call is reached and does not raise, `draw` holds exactly `k` distinct members of `range(1, total_rows + 1)`. `SampleExists` shows that such a draw always exists.
- The routine ends in an `Outcome`:
  - `Missing` is the early `None` return.
  - `Failed(e)` is an exception. `random.sample` raises `ValueError` when `n_samples < 0` on a non-empty file, or `n_samples < -1` on an empty one. Otherwise `read_csv` raises `EmptyDataError` on an empty file, which has `total_rows = -1`.
  - `Sampled(frame)` is the returned data frame.

  `ProcessRawFile` proves that the routine samples exactly when the file exists, has a header line and `n_samples >= 0`.
- The branch test is the strict `total_rows < n_samples`. With `total_rows == n_samples` the second branch runs and draws zero indices. `SmallFileCopiedWhole` proves that both branches copy the file whole.
- The script hands the routine's results to `pd.concat`. `pd.concat` drops `None` entries. It raises `ValueError` when every entry is `None` or the list is empty. So a missing file contributes no rows, and two missing files end the script with an error.

## Model

| member | source | states |
|---|---|---|
| ProcessData.CountLinesIsLength | process_data.py:17-19 | counting one per line of the file gives the number of lines |
| ProcessData.TotalRows | process_data.py:17-19 | the row count is the number of lines minus one for the header; it is -1 for an empty file |
| ProcessData.ChooseSkipRows | process_data.py:23-30 | skip list is empty when total_rows < n_samples; otherwise it has exactly total_rows - n_samples entries and is a permutation of the draw; it raises exactly when random.sample is asked for more than the population; entries are strictly ascending, lie in [1, total_rows] and never include the header line 0 |
| ProcessData.SampleExists | process_data.py:30 | whenever random.sample can be called legally, some draw satisfies its contract, so the routine's precondition can be met |
| Sorting.Sort | process_data.py:30 | sorted returns an ascending permutation of its argument |
| Sorting.DistinctPermutation | process_data.py:30 | a permutation of a duplicate-free list is duplicate-free |
| Sorting.SortDistinct | process_data.py:30 | sorting the distinct values drawn by random.sample gives a strictly ascending list |
| Sorting.SortBounds | process_data.py:30 | sorting keeps every bound the drawn values satisfy, here [1, total_rows] |
| ProcessData.ReadCsv | process_data.py:34-39 | for a skip list that leaves the header line 0 in place: read_csv raises on an empty file; otherwise the frame keeps the header line and carries a fresh index 0..n-1 |
| ProcessData.SelectAtKeptPositions | process_data.py:34-39 | the rows read are exactly the lines at the kept line numbers, in order |
| ProcessData.KeptPositionsExact | process_data.py:34-39 | the kept line numbers are strictly ascending, lie in range, avoid the skip list, and include every line number outside it |
| ProcessData.KeptPositionsCount | process_data.py:29-39 | skipping a strictly ascending list of in-range line numbers removes exactly one line per entry |
| ProcessData.SelectNothingSkipped | process_data.py:23-39 | with an empty skip list every data line is read, in file order |
| ProcessData.ProcessRawFile | process_data.py:5-43 | returns None exactly when the path is missing; returns a sample exactly when the file has a header line and n_samples >= 0; the other cases raise ValueError when n_samples < 0 on a non-empty file or n_samples < -1 on an empty one, and EmptyDataError on an empty file otherwise |
| ProcessData.SampleSize | process_data.py:29-42 | the sample has min(total_rows, n_samples) rows, keeps the header line and has a fresh index |
| ProcessData.SmallFileCopiedWhole | process_data.py:23-39 | when total_rows <= n_samples the skip list is empty and the sample is every data line in file order, including the boundary case total_rows == n_samples |
| ProcessData.SampleRowsFromSource | process_data.py:29-39 | each sampled row is the source line at a distinct, strictly ascending, non-skipped data position, and every non-skipped data line is sampled |
| ProcessData.AllRowsLength | process_data.py:54 | the concatenated rows number the sum of the parts' rows |
| ProcessData.Concat | process_data.py:54 | concat fails exactly when nothing is left after dropping None entries; otherwise the result has the total number of rows and a fresh contiguous index |
| ProcessData.ConcatPair | process_data.py:54 | two samples combine to the first's rows followed by the second's, len(a) + len(b) rows, index 0..n-1 |
| ProcessData.ConcatDropsMissing | process_data.py:51-54 | a missing sample on either side is dropped from the concatenation, and two missing samples raise |
| ProcessData.RunScript | process_data.py:50-56 | the script fails exactly when either file is empty or both are missing; otherwise the combined table has a fresh index |
| ProcessData.ScriptCombinedSize | process_data.py:50-55 | with both files present, the combined table is the accepted sample followed by the rejected one, with min(rows, 20000) + min(rows, 20000) rows and index 0..n-1 |

## Left out

- CSV parsing: a row is one line. Quoted fields with embedded newlines, blank-line skipping, dtype inference and `low_memory` are not modelled.
- Text decoding: the counting pass reads with `errors='ignore'` and the reading pass does not. The model assumes that both passes see the same lines, and it does not model decoding errors in the second pass.
- The uniform distribution of `random.sample`: the model keeps only what the call returns (distinct values, in range, exact count).
- Console output, `os.path.exists` (an `Option` input instead) and the final `to_csv` write: these are I/O.
- Concat: the model does not build the union of the two headers or fill missing columns with nulls. The combined frame keeps the first present sample's header line.
- The plotting helpers in `code/utils.py` and the preview script `quick.py`: they are not part of this model.
- ReadCsv: a skip list containing line 0, on which pandas would take the next kept line as the header, is not covered; the routine never passes one (`ChooseSkipRows` ensures `0 !in` its result).
- The memory bound of the reading pass (only the kept rows are held) is a property of the I/O, and the model does not state it.
