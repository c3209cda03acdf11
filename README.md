# Relative-strength screen: a verified model

This project models the analytics core of a stock screener written in Python
with pandas (`main/robot/classes.py`). The screener compares each ticker's
closing price with a benchmark. It computes a relative strength
`rs = round(close / benchmark, 2)` and smooths it with a trailing moving average
`rs_ma`. Then two filters run one after the other:

- `has_rs_grown` keeps a ticker when its relative strength ended strictly above
  where it started.
- `has_rs_crossed_ma` keeps a ticker when a backward scan from the last row
  counts enough rows with `rs > rs_ma`.

## How the model is laid out

- `wrappers.dfy`, module `Wrappers`: `Option` (where `None` is a pandas NaN) and `Result`.
- `frames.dfy`, module `Frames`: the DataFrame.
  - A `Table` value holds the tickers in column order and each ticker's
    second-level columns (`map<Label, seq<Option<real>>>`). It also holds the
    row count.
  - Rows are addressed by position 0 .. rows − 1. The source's `loc[0]` and
    `loc[len - 1]` assume a default integer index, and the model takes that as given.
  - `Drop` is `DataFrame.drop(columns=[ticker], level=0)`. `Project` is the
    sub-table of chosen tickers.
  - The class `PriceFrame` is the mutable DataFrame object that `rs_ma` writes
    into in place.
- `metrics.dfy`, module `Metrics`: `Metrics.rs` and `Metrics.rs_ma`.
  - Rounding is round-half-to-even on exact reals.
  - `rolling(window).mean()` uses the default `min_periods = window`: an entry is
    undefined before a full window, and also when any value in its window is
    NaN.
  - `RsMa` is the ticker loop. It writes `rs_ma` into the caller's frame.
- `data_filter.dfy`, module `DataFilter`: both filters.
  - Each ticker's decision is a `Verdict` (`Keep`, `Discard` or `Fail`) that
    depends only on that ticker's columns.
  - `Screen`/`Apply` is the specification of the filters' ticker loop.
  - `HasRsGrown` and `HasRsCrossedMa` are the loops themselves. Like the source,
    they rebind a local table to a dropped copy for each failing ticker.
    `CountDaysAboveMa` is the `while row_nr != -1` scan.
- `scenario.dfy`, module `Scenario`: the mirrored NVDA/TSLA table of the unit
  tests, with moving-average window 2.

Where the source raises, the model returns an error value:

- `loc` on a zero-row table, or a missing `rs` / `rs_ma` column, raises a
  pandas `KeyError`. The model returns `Err(KeyError(ticker))`.
- `rs_ma` raises part-way through its loop when a ticker has no `rs` column.
  The model leaves the columns already written in place, as the source does,
  and returns `Some(KeyError(ticker))`.

### Behaviour of the code at its edges

- On a row where `rs == rs_ma`, the backward scan neither stops nor counts.
  It also passes over a row where `rs` is NaN and `rs_ma` is defined, since
  both comparisons are false there (classes.py:115-120). So `count_days` can
  exceed the length of the unbroken run of strictly-above days: equal rows
  and NaN-rs rows are passed over, and earlier above rows still count. A
  ticker can therefore meet a threshold that an unbroken-run reading of the
  docstring's "has held its relative strength above ma" (classes.py:98) would
  reject. `Streak` and `StreakIsTrailingRun` state the code's rule.
  `StreakCoversStrictRun` proves `count_days` is never below the unbroken run.
  `StreakExceedsStrictRun` shows a case where it is above.
- On a zero-row table, `row_nr` starts at −1, so the scan never reads a cell.
  `count_days` stays 0 and nothing is raised (classes.py:107-111). Each ticker
  is then kept exactly when the threshold is ≤ 0.
- On a zero-row table with at least one ticker, `has_rs_grown` raises because
  `loc[0]` does not exist (classes.py:80).
- `rs_ma` does not check its window. The docstring gives the ceiling 21
  (classes.py:54), and the caller checks 1..21 (implementation.py:150). The
  model states that range as a precondition.

## Model

| member | source | states |
|---|---|---|
| `Metrics.RoundHalfEven` | main/robot/classes.py:41-44 | the result is an integer within 1/2 of the input; on an exact tie it is the even one |
| `Metrics.Round2` | main/robot/classes.py:41-44 | `round(x, 2)` is a whole number of hundredths within 0.005 of x |
| `Metrics.Round2Unique` | main/robot/classes.py:41-44 | away from ties, the rounded value is the only cent value within half a cent of x |
| `Metrics.Round2OfCents` | main/robot/classes.py:41-44 | rounding a value that already has two decimals gives it back |
| `Metrics.RsCell` | main/robot/classes.py:41-44 | one rs cell is defined iff both prices are, and is then a cent value within 0.005 of stock / market |
| `Metrics.Rs` | main/robot/classes.py:34-45 | element-wise, same length; a cell is defined iff both prices are; a defined cell is a cent value within 0.005 of stock / market |
| `Metrics.RsIsNearestCent` | main/robot/classes.py:41-44 | a defined rs cell equals the cent value nearest the price ratio |
| `Metrics.RollingMean` | main/robot/classes.py:60 | same length as rs; entry i is the default-`min_periods` rolling mean at row i |
| `Metrics.MeanAt` | main/robot/classes.py:60 | the rolling mean at row i is defined iff a full window ends there and all its cells are defined; with window 1 it is the cell itself |
| `Metrics.RollingMeanDefined` | main/robot/classes.py:60 | entry i is defined iff i ≥ window − 1 and all of rs[i−window+1..i] are defined, so entries 0..window−2 are NaN |
| `Metrics.RollingMeanWithinWindow` | main/robot/classes.py:60 | a defined moving-average entry lies between the smallest and the largest rs value of its window |
| `Metrics.RollingMeanOfConstant` | main/robot/classes.py:60 | a window of equal values averages to that value |
| `Metrics.RollingMeanWindowOne` | main/robot/classes.py:60 | with window 1 the moving average is rs itself |
| `Metrics.SumBounds` | main/robot/classes.py:60 | a sum of n values in [lo, hi] lies in [n·lo, n·hi] |
| `Metrics.MeanBounds` | main/robot/classes.py:60 | dividing such a sum by the window gives a mean in [lo, hi] |
| `Metrics.FirstLacking` | main/robot/classes.py:58-60 | the index of the first ticker without an `rs` column: all earlier tickers have one |
| `Metrics.AttachRsMa` | main/robot/classes.py:60 | one ticker gains exactly the `rs_ma` column, equal to the rolling mean of its `rs`; every other column is kept |
| `Metrics.WithRsMa` | main/robot/classes.py:59-60 | writing `rs_ma` for the first k tickers keeps the tickers, their order, the row count and the set of tickers with columns |
| `Metrics.WithRsMaShape` | main/robot/classes.py:58-61 | after writing `rs_ma` for the first k tickers: the table is valid, tickers and row count are unchanged, those k tickers gained `rs_ma`, and the rest are untouched |
| `Metrics.WithRsMaStep` | main/robot/classes.py:59-60 | writing ticker k extends the written prefix by exactly that ticker |
| `Metrics.RsMa` | main/robot/classes.py:47-61 | the frame afterwards has `rs_ma` for every ticker before the first one lacking `rs`; the result names that ticker's `KeyError`, or is `None` when every ticker has `rs` |
| `Frames.Project` | main/robot/classes.py:84-87 | the sub-table has exactly the chosen tickers, each with its columns unchanged, and the same row count |
| `Frames.Without` | main/robot/classes.py:84-86 | removing a ticker keeps every other ticker |
| `Frames.WithoutAbsent` | main/robot/classes.py:84-86 | removing a ticker that is not there changes nothing |
| `Frames.Drop` | main/robot/classes.py:84-86 | `drop(columns=[tk], level=0)` removes exactly tk's columns; every other ticker keeps its columns unchanged and its place in the order, and the row count is kept |
| `Frames.WithoutSnoc` | main/robot/classes.py:84-86 | removing x from ts + [y] gives the result for ts, followed by y unless y is x |
| `Frames.WithoutSubsequence` | main/robot/classes.py:84-86 | removing a ticker leaves the others in their original order |
| `Frames.WithoutSplit` | main/robot/classes.py:125-128 | dropping a ticker that occurs once removes exactly that occurrence |
| `Frames.DropProject` | main/robot/classes.py:125-128 | dropping the current ticker from the rebound table gives the projection onto the others |
| `Frames.ProjectAll` | main/robot/classes.py:78-79 | projecting onto every ticker gives the table back |
| `Frames.ProjectValid` | main/robot/classes.py:84-87 | a sub-table on distinct tickers of a valid table is valid |
| `Frames.PriceFrame.SetColumn` | main/robot/classes.py:60 | `frame[tk, col] = s` replaces or adds that one column and changes nothing else |
| `DataFilter.Grew` | main/robot/classes.py:80-87 | the test `rs_period_end > rs_period_start` can hold only with at least two rows |
| `DataFilter.Breaks` | main/robot/classes.py:115 | with a NaN rs the scan stops iff ma is NaN; a breaking row is never a counted row; with both defined a row breaks, counts, or has rs equal to ma |
| `DataFilter.Above` | main/robot/classes.py:117 | a counted row has both values defined and rs different from ma |
| `DataFilter.Streak` | main/robot/classes.py:107-120 | `count_days` of the backward scan is at most the number of rows scanned |
| `DataFilter.DaysAboveMa` | main/robot/classes.py:107-120 | a ticker's `count_days` is at most the row count, and 0 on a zero-row table |
| `DataFilter.CountDaysAboveMa` | main/robot/classes.py:107-120 | the `while row_nr != -1` loop, stopping at `rs < ma or isna(ma)` and counting `rs > ma`, returns `Streak` |
| `DataFilter.StreakIsTrailingRun` | main/robot/classes.py:111-120 | `count_days` is the number of rs > ma rows inside the maximal trailing run of rows where ma is defined and rs < ma is false |
| `DataFilter.CountAboveLast` | main/robot/classes.py:117-118 | counting rs > ma rows over an interval splits off its last row |
| `DataFilter.StreakCoversStrictRun` | main/robot/classes.py:111-120 | `count_days` is at least the length of the unbroken trailing run of rows with rs strictly above ma |
| `DataFilter.StreakExceedsStrictRun` | main/robot/classes.py:115-118 | on rs = [2, 1, 2] and ma = [1, 1, 1], `count_days` is 2 while the unbroken strictly-above run is 1 |
| `DataFilter.Judge` | main/robot/classes.py:80-128 | the verdict fails exactly where the lookups raise (growth: no rows or no `rs`; crossover: rows and no `rs` or no `rs_ma`); otherwise growth keeps iff both endpoints are defined and rs[n−1] > rs[0], and crossover keeps iff `count_days` ≥ the threshold |
| `DataFilter.Screen` | main/robot/classes.py:78-89 | every kept ticker is one of the tickers processed so far |
| `DataFilter.ScreenFails` | main/robot/classes.py:80-81 | the filter raises iff some ticker's lookup fails, and the error names the first such ticker in column order |
| `DataFilter.ScreenKeeps` | main/robot/classes.py:84-87 | a ticker is kept iff it was processed and its own verdict is Keep |
| `DataFilter.ScreenOrder` | main/robot/classes.py:78-89 | the kept tickers are distinct and form a subsequence of the input tickers |
| `DataFilter.Apply` | main/robot/classes.py:78-89 | the filtered table keeps the row count, has only input tickers, and leaves every kept ticker's columns unchanged |
| `DataFilter.ScreenErrPersists` | main/robot/classes.py:80-81 | after a lookup error, no later ticker changes the outcome |
| `DataFilter.NextTickerFresh` | main/robot/classes.py:79 | the ticker being processed is neither already kept nor still to come |
| `DataFilter.ScreenStep` | main/robot/classes.py:84-87 | processing one ticker raises, appends it, or leaves the kept list as it was, according to its verdict |
| `DataFilter.FilterStep` | main/robot/classes.py:79-128 | one loop iteration: on Fail the whole filter raises that ticker's `KeyError`; on Keep or Discard the rebound table stays the projection onto the kept and remaining tickers |
| `DataFilter.GrowthStep` | main/robot/classes.py:79-87 | one `has_rs_grown` iteration in the loop's own tests: no rows or no `rs` means the filter raises; otherwise `rs_period_end > rs_period_start` keeps the ticker and its failure drops it |
| `DataFilter.CrossoverStep` | main/robot/classes.py:106-128 | one `has_rs_crossed_ma` iteration: rows with a missing `rs` or `rs_ma` mean the filter raises; otherwise `count_days` ≥ the threshold keeps the ticker and anything less drops it |
| `DataFilter.ReboundEnds` | main/robot/classes.py:78-89 | before the loop the rebound table is the input; after the last ticker it is the filtered table |
| `DataFilter.HasRsGrown` | main/robot/classes.py:71-89 | the loop returns exactly the growth filter's table, or its `KeyError` |
| `DataFilter.HasRsCrossedMa` | main/robot/classes.py:92-130 | the loop returns exactly the crossover filter's table for the threshold, or its `KeyError` |
| `DataFilter.SubsequenceMembers` | main/robot/classes.py:78-89 | every ticker of a subsequence is in the sequence |
| `DataFilter.ScreenAllKept` | main/robot/classes.py:84-87 | when every ticker's verdict is Keep, all tickers are kept in order |
| `DataFilter.FilterShape` | main/robot/classes.py:78-89 | filtered table: valid, same row count, its tickers a subsequence of the input's, kept tickers' columns unchanged, a ticker kept iff its own verdict is Keep |
| `DataFilter.FilterIdempotent` | main/robot/classes.py:104-130 | applying either filter to its own output gives the same output |
| `DataFilter.GrowthFails` | main/robot/classes.py:80-81 | `has_rs_grown` raises iff some ticker has no rs column, or the table has no rows and at least one ticker |
| `DataFilter.GrowthKeepsGrown` | main/robot/classes.py:80-87 | a ticker survives `has_rs_grown` iff both endpoints are defined and rs[n−1] > rs[0] strictly |
| `DataFilter.CrossoverFails` | main/robot/classes.py:112-113 | `has_rs_crossed_ma` raises iff the table has rows and some ticker lacks rs or rs_ma |
| `DataFilter.CrossoverKeepsHolding` | main/robot/classes.py:122-128 | a ticker survives iff its `count_days` ≥ `days_rs_holds_above_ma` |
| `DataFilter.CrossoverNonPositiveKeepsAll` | main/robot/classes.py:107-128 | a threshold ≤ 0 keeps every ticker, also on a zero-row table |
| `DataFilter.ScreenMonotone` | main/robot/classes.py:122-128 | a larger threshold keeps a subsequence of the tickers that a smaller one keeps, and both raise alike |
| `DataFilter.CrossoverMonotone` | main/robot/classes.py:122-128 | a larger threshold yields a subsequence, hence a subset, of a smaller threshold's survivors |
| `Scenario.Prices` | main/tests/test_classes.py:59-89 | a fixture column has no NaN |
| `Scenario.PricesPositive` | main/tests/test_classes.py:60-87 | every fixture price is positive |
| `Scenario.BaseValid` | main/tests/test_classes.py:52-96 | the fixture with rs attached is a valid table |
| `Scenario.NvdaRs` | main/tests/test_classes.py:90-96 | NVDA's rs is 1.12 at row 0 and 1.04, 1.09, 1.08 at rows 23-25 |
| `Scenario.TslaRs` | main/tests/test_classes.py:90-96 | TSLA's rs is 0.89 at row 0 and 0.96, 0.91, 0.92 at rows 23-25 |
| `Scenario.MeanOfTwo` | main/tests/test_classes.py:97-100 | with window 2, the moving average at row i is the mean of rows i−1 and i |
| `Scenario.FixtureShape` | main/tests/test_classes.py:97-101 | after rs_ma with window 2 the fixture is valid, has tickers [NVDA, TSLA] and 26 rows |
| `Scenario.FixtureColumns` | main/tests/test_classes.py:90-101 | each fixture ticker has rs (its own rounded ratio) and rs_ma (window-2 mean of rs) |
| `Scenario.NvdaJudged` | main/tests/test_classes.py:103-144 | NVDA is dropped by the growth filter and by the crossover filter for every threshold ≥ 1 |
| `Scenario.TslaJudged` | main/tests/test_classes.py:103-144 | TSLA passes the growth filter and the crossover filter with threshold 1, but not with threshold 2 |
| `Scenario.FixtureVerdicts` | main/tests/test_classes.py:103-144 | the six verdicts on the fixture table |
| `Scenario.ScreenSecondOnly` | main/robot/classes.py:78-89 | on two tickers where only the second is kept, the filter returns just that one |
| `Scenario.ScreenNeither` | main/robot/classes.py:78-89 | on two tickers where neither is kept, the filter returns no tickers |
| `Scenario.FixtureGrowth` | main/tests/test_classes.py:103-114 | `has_rs_grown` keeps exactly [TSLA] |
| `Scenario.FixtureCrossover` | main/tests/test_classes.py:116-144 | `has_rs_crossed_ma` keeps exactly [TSLA] with threshold 1 and nothing with threshold 2 |
| `Scenario.FixtureRsMaBoundary` | main/tests/test_classes.py:187-201 | with window 2, rs_ma row 0 is NaN and row 1 is defined |

## Left out

- `Yfinance.get_price_data` (classes.py:12-25) and `get_page_tables` (functions.py:6-17): these are network downloads and HTML scraping.
- `WikiTickersExtractor` (classes.py:133-160): the source marks it redundant, and it is pure I/O.
- `main()` in implementation.py is left out. It covers interactive input, logging setup, column-level reordering, attaching rs against the index close, and trimming by date. Its window range check (implementation.py:150) appears as the `RsMa` window precondition. Its threshold check (implementation.py:194) is not modelled: the crossover filter accepts any integer threshold, as `has_rs_crossed_ma` itself does.
- config.py holds constants only. `MaxWindow = 21` echoes its `MA_WINDOW`.
- Metrics.Round2: works on exact reals, not IEEE doubles. Python's `round` on a float that prints as a tie (2.675) can go the other way, because the float is not exactly the decimal.
- Metrics.Rs: assumes no benchmark price is zero. pandas would give ±inf or NaN there, and closing prices are positive.
- Metrics.RollingMean: computes the mean exactly. pandas uses a sliding floating-point sum, which can differ in the last bits.
- The filters take the table as a value and give back a new one (`drop` copies), while `RsMa` changes the caller's frame in place. When every ticker survives, the source returns the input object itself; the value model does not capture that aliasing.
- pandas column-index mechanics are abstracted into a map per ticker: MultiIndex levels, unused levels after `drop`, and the order of columns inside a ticker.
- Label-based `loc` on a non-default index (after trimming by date) is left out. The model addresses rows by position only.
