# Trace loader, trace converters and stock-simulator ledger

This project models in Dafny three small, self-contained pieces of the OpenEuler
hackathon repository, and proves properties of them.

- **Trace loader** (`DataLoaderPintos`, module `DataLoader`). It takes one path or
  a list of paths. Each path stands for the trace table read from it: rows of
  `blocksector`, `read/write` and `boot/exec`. Unless `boot` is set, it keeps only
  the rows whose `boot/exec` is 1. It appends the `blocksector` and `read/write`
  columns of every source, in order, to the fields `requests` and `operations`.
  The class keeps those two fields. Its constructor is the loop over the
  sources, proved against the functions `Load`, `Blocksectors` and
  `ReadWriteFlags`.
- **Trace converters** (module `DataPreprocessing`). Each converter turns
  monitoring samples (`disk_read`, `disk_write` in bytes) into block-sector
  records: a read record and then a write record per sample, and `boot/exec` 1
  only for sample 0. The sector numbers come from one of three rules:
  - ceiling division, with a non-positive count giving 0;
  - truncating division;
  - the running total divided by 256.

  `convert_monitoring_data` picks ceiling or truncation from two averages.
  Each converter is a method with the source's loop, proved to produce the
  record list the predicate `Expansion` describes.
- **How the two fit together** (module `FilesysPipeline`). The evaluation script
  loads a converted trace with the default `boot=False`. Because only sample 0
  is marked boot, this keeps exactly the first two records.
- **Stock simulator** (modules `StockLedger` and `StocksSimulator`). It covers:
  - the password check `validity`;
  - the holdings text `stocks_owned`;
  - the sell branch, the buy branch and the end-of-day rollover of the trading
    loop, which update the module's globals in place.

  The globals become the fields of class `Market`. Each branch is a method proved
  against a pure ledger function (`Sell`, `Buy`) over `(money, stocks1,
  userchoices)`. Money and prices are whole cents, so the starting $1000 is
  `100000`.

Shared trace format: module `TraceFormat` (`Row`, `Table`, the flag constants).

## Model

| member | source | states |
|---|---|---|
| `DataLoader.DataLoaderPintos.constructor` | OpenEuler_Hackathon_track2_vertex/ai/cache/DataLoader.py:16-24 | starting from empty lists, `requests` and `operations` are the `blocksector` and `read/write` columns of the selected rows of all sources, in order, and have equal length |
| `DataLoader.DataLoaderPintos.GetRequests` | OpenEuler_Hackathon_track2_vertex/ai/cache/DataLoader.py:33-34 | returns the stored `requests` unchanged and changes nothing |
| `DataLoader.DataLoaderPintos.GetOperations` | OpenEuler_Hackathon_track2_vertex/ai/cache/DataLoader.py:36-37 | returns the stored `operations` unchanged and changes nothing |
| `DataLoader.Sources` | OpenEuler_Hackathon_track2_vertex/ai/cache/DataLoader.py:19 | a single path becomes the one-element list holding its table; a list of paths is used as given |
| `DataLoader.Select` | OpenEuler_Hackathon_track2_vertex/ai/cache/DataLoader.py:22 | the rows taken from one source: all of them when `boot` is set, the boot rows otherwise; never more rows than the source has |
| `DataLoader.Load` | OpenEuler_Hackathon_track2_vertex/ai/cache/DataLoader.py:20-24 | the rows appended source after source, which never exceed all rows of all sources |
| `DataLoader.Blocksectors` | OpenEuler_Hackathon_track2_vertex/ai/cache/DataLoader.py:23 | the column has one entry per row, and entry i is row i's `blocksector` |
| `DataLoader.ReadWriteFlags` | OpenEuler_Hackathon_track2_vertex/ai/cache/DataLoader.py:24 | the column has one entry per row, and entry i is row i's `read/write` flag, so index i of `operations` belongs to the row of `requests[i]` |
| `DataLoader.BootRows` | OpenEuler_Hackathon_track2_vertex/ai/cache/DataLoader.py:22 | the filter never yields more rows than it is given |
| `DataLoader.BootRowsExactly` | OpenEuler_Hackathon_track2_vertex/ai/cache/DataLoader.py:22 | a row survives the filter if and only if it is in the source and its boot/exec is 1 |
| `DataLoader.BootRowsAppend` | OpenEuler_Hackathon_track2_vertex/ai/cache/DataLoader.py:22 | filtering commutes with concatenation, so kept rows keep their relative order |
| `DataLoader.BootRowsSingle` | OpenEuler_Hackathon_track2_vertex/ai/cache/DataLoader.py:22 | one row is kept exactly when its boot/exec is 1 |
| `DataLoader.BootRowsOfBootOnly` | OpenEuler_Hackathon_track2_vertex/ai/cache/DataLoader.py:22 | a table of boot rows only is kept whole |
| `DataLoader.BootRowsOfNoBoot` | OpenEuler_Hackathon_track2_vertex/ai/cache/DataLoader.py:22 | a table with no boot rows is dropped entirely |
| `DataLoader.LoadAppend` | OpenEuler_Hackathon_track2_vertex/ai/cache/DataLoader.py:20-24 | loading a split list of sources is loading each part and concatenating, in the order supplied |
| `DataLoader.BlocksectorsAppend` | OpenEuler_Hackathon_track2_vertex/ai/cache/DataLoader.py:23 | `+=` of the column of a new source extends the requests by exactly that column |
| `DataLoader.ReadWriteFlagsAppend` | OpenEuler_Hackathon_track2_vertex/ai/cache/DataLoader.py:24 | `+=` of the column of a new source extends the operations by exactly that column |
| `DataLoader.LoadWithBoot` | OpenEuler_Hackathon_track2_vertex/ai/cache/DataLoader.py:22-23 | with `boot=True` every row of every source is kept in order, so the request count is the total row count |
| `DataLoader.LoadWithoutBoot` | OpenEuler_Hackathon_track2_vertex/ai/cache/DataLoader.py:22 | with `boot=False` the loaded rows are exactly the boot/exec 1 rows of all sources, in order |
| `DataLoader.LoadSingle` | OpenEuler_Hackathon_track2_vertex/ai/cache/DataLoader.py:20-22 | a one-source list loads as that source's selected rows |
| `DataLoader.LoadOnePath` | OpenEuler_Hackathon_track2_vertex/ai/cache/DataLoader.py:19 | a single path loads the same rows as the one-element list holding it |
| `DataLoader.EmptySourceContributesNothing` | OpenEuler_Hackathon_track2_vertex/ai/cache/DataLoader.py:20-24 | a source whose filtered rows are empty adds nothing, wherever it stands, and the load still succeeds |
| `DataPreprocessing.TruncDiv` | OpenEuler_Hackathon_track2_vertex/ai/dataPreprocessing.py:42 | `int(x / B)` truncates toward zero: for x >= 0, k·B <= x < (k+1)·B; for x < 0 the same bounds on -k and -x |
| `DataPreprocessing.CeilSectors` | OpenEuler_Hackathon_track2_vertex/ai/dataPreprocessing.py:38 | a non-positive count maps to 0; a positive x maps to k >= 1 with (k-1)·B < x <= k·B, the least k covering x |
| `DataPreprocessing.Convert` | OpenEuler_Hackathon_track2_vertex/ai/dataPreprocessing.py:38-42 | the chosen lambda applied to one byte count: non-negative for a non-negative count; under ceiling, 0 for a non-positive count and at least one covering sector for a positive one; under floor, for a non-negative count, k·B <= x < (k+1)·B |
| `DataPreprocessing.CeilingCoversRequest` | OpenEuler_Hackathon_track2_vertex/ai/dataPreprocessing.py:125-126 | 0 maps to 0; a positive request yields at least one sector, its sectors cover its bytes, and no smaller count does |
| `DataPreprocessing.ChooseConversion` | OpenEuler_Hackathon_track2_vertex/ai/dataPreprocessing.py:24-42 | the block size is 512, and ceiling is chosen if and only if the read average or the write average is below 2·512 |
| `DataPreprocessing.Reads` | OpenEuler_Hackathon_track2_vertex/ai/dataPreprocessing.py:49 | the `disk_read` column: one entry per sample, entry i is sample i's read bytes |
| `DataPreprocessing.Writes` | OpenEuler_Hackathon_track2_vertex/ai/dataPreprocessing.py:50 | the `disk_write` column: one entry per sample, entry i is sample i's write bytes |
| `DataPreprocessing.ConvertColumn` | OpenEuler_Hackathon_track2_vertex/ai/dataPreprocessing.py:53-54 | the chosen conversion applied to every value and to nothing else, keeping positions |
| `DataPreprocessing.Sum` | OpenEuler_Hackathon_track2_vertex/ai/dataPreprocessing.py:163-164 | the running total of `cumsum`, never negative when the values are not |
| `DataPreprocessing.CumulativeSectors` | OpenEuler_Hackathon_track2_vertex/ai/dataPreprocessing.py:163-164 | one entry per sample; entry i is the running total through sample i, divided by 256 and truncated, so entry·256 <= total < entry·256 + 256 for a non-negative total |
| `DataPreprocessing.BootFlag` | OpenEuler_Hackathon_track2_vertex/ai/dataPreprocessing.py:57 | the boot/exec value of a sample's records: 1 exactly for sample 0, otherwise 0 |
| `DataPreprocessing.RecordAt` | OpenEuler_Hackathon_track2_vertex/ai/dataPreprocessing.py:57-71 | record j of a converted trace: a read exactly at even j, boot/exec 1 exactly for j < 2, carrying sample j / 2's read or write sector |
| `DataPreprocessing.Expansion` | OpenEuler_Hackathon_track2_vertex/ai/dataPreprocessing.py:48-71 | the record list the converter loops build: every record is its `RecordAt`, hence 2·n records for n samples |
| `DataPreprocessing.ExpansionShape` | OpenEuler_Hackathon_track2_vertex/ai/dataPreprocessing.py:57-71 | every converted trace has 2·n records; records 2i and 2i+1 are sample i's read and then its write; read/write alternates 1, 0; boot/exec is 1 exactly on the first two records |
| `DataPreprocessing.ExpansionStep` | OpenEuler_Hackathon_track2_vertex/ai/dataPreprocessing.py:59-71 | the two appends for sample idx extend the expansion of the first idx samples to the first idx + 1 |
| `DataPreprocessing.ConvertMonitoringData` | OpenEuler_Hackathon_track2_vertex/ai/dataPreprocessing.py:48-77 | fails exactly on an empty input; otherwise the output is the expansion of both columns under the chosen conversion |
| `DataPreprocessing.ConvertWithSmallerBlocksize` | OpenEuler_Hackathon_track2_vertex/ai/dataPreprocessing.py:120-145 | fails exactly on an empty input; otherwise the output is the expansion of both columns under ceiling division by `block_size` |
| `DataPreprocessing.ConvertWithCumulativeSectors` | OpenEuler_Hackathon_track2_vertex/ai/dataPreprocessing.py:160-189 | fails exactly on an empty input; otherwise sample i's read and write sectors are the truncated running totals through sample i, divided by 256 |
| `DataPreprocessing.PrefixSumMonotone` | OpenEuler_Hackathon_track2_vertex/ai/dataPreprocessing.py:163-164 | with non-negative values a running total never decreases and is never negative |
| `DataPreprocessing.DivMonotone` | OpenEuler_Hackathon_track2_vertex/ai/dataPreprocessing.py:163-164 | truncating division by a positive block size keeps the order of non-negative values |
| `DataPreprocessing.CumulativeMonotone` | OpenEuler_Hackathon_track2_vertex/ai/dataPreprocessing.py:153-164 | with non-negative byte counts the cumulative sector numbers are non-negative and never decrease from one sample to a later one |
| `FilesysPipeline.DefaultLoadKeepsFirstSample` | OpenEuler_Hackathon_track2_vertex/ai/cache/DataLoader.py:22 | a converted trace of n >= 1 samples, loaded with the default `boot=False`, yields exactly its first two records, sample 0's read and write sectors |
| `StocksSimulator.InClass` | stocks_simulator.py:39 | the three character tests `isupper`, `islower`, `isdigit`, over ASCII letters and digits only; no non-ASCII character passes any of them |
| `StocksSimulator.AnyOf` | stocks_simulator.py:39 | `any(...)` over a character test holds if and only if some character passes it |
| `StocksSimulator.Validity` | stocks_simulator.py:37-42 | no verdict exactly for the empty password; `'valid'` if and only if the password has an upper-case letter, a lower-case letter and a digit |
| `StocksSimulator.NatToString` | stocks_simulator.py:152 | `str(n)` is a non-empty run of decimal digits with no leading zero whose value is n |
| `StocksSimulator.Entry` | stocks_simulator.py:152-155 | each holding's text is non-empty and ends in a space |
| `StocksSimulator.Holdings` | stocks_simulator.py:149-155 | the text built after looking at the first k counts, one entry per positive count in index order; empty when none of those counts is positive |
| `StocksSimulator.HoldingsEmpty` | stocks_simulator.py:150-155 | the built text is empty if and only if no count looked at is positive, and otherwise ends in a space |
| `StocksSimulator.StocksOwned` | stocks_simulator.py:148-159 | returns `'none'` if and only if none of the first five counts is positive; otherwise the entries `"<count> <name> "` of the positive counts, in index order |
| `StockLedger.InitialAccount` | stocks_simulator.py:4-14 | the starting ledger has a count for each of the five companies |
| `StockLedger.Count` | stocks_simulator.py:260 | `userchoices.count(id)`, never more than the list's length |
| `StockLedger.CountPositive` | stocks_simulator.py:260-262 | `userchoices.count(c) > 0` if and only if `c in userchoices` |
| `StockLedger.CountAppend` | stocks_simulator.py:313-327 | counting distributes over appending |
| `StockLedger.Repeat` | stocks_simulator.py:313-327 | `amount` successive `extend`s of an id leave exactly `amount` copies of it |
| `StockLedger.CountRepeat` | stocks_simulator.py:313-327 | those copies count `amount` times for the id and never for another |
| `StockLedger.RemoveFirst` | stocks_simulator.py:265 | `remove(c)` shortens the list by one, drops one copy of c and keeps every other count |
| `StockLedger.IndexOf` | stocks_simulator.py:265 | the first copy of c: it is c, and no copy comes before it |
| `StockLedger.RemoveFirstSplice` | stocks_simulator.py:265 | `remove(c)` deletes the first copy and keeps everything else in order |
| `StockLedger.RemoveFirstN` | stocks_simulator.py:263-277 | `amount` removals shorten the list by `amount`, drop exactly `amount` copies of the id and keep every other count |
| `StockLedger.Sell` | stocks_simulator.py:248-290 | succeeds if and only if the id is recorded and counted at least `amount` times; then money rises by `amount`·price, the holding drops by `amount` and exactly `amount` copies go; a failed sell changes nothing |
| `StockLedger.SellSucceeds` | stocks_simulator.py:262-285 | a sell whose condition holds is exactly the removal, payment and holding update |
| `StockLedger.Buy` | stocks_simulator.py:300-341 | the ids are recorded whatever happens; succeeds if and only if cost <= money; then money drops by the cost and the holding rises by `amount`; on failure money and holdings are unchanged |
| `StockLedger.BuyChecked` | stocks_simulator.py:329-341 | the corrected buy: same success condition and effect, and a failed buy changes nothing at all |
| `StockLedger.Apply` | stocks_simulator.py:233-341 | one day's trade keeps a count for each of the five companies |
| `StockLedger.ConsistentHoldingsNonNegative` | stocks_simulator.py:284 | while every company's holding equals the count of its id in `userchoices`, no holding is negative |
| `StockLedger.InitialConsistent` | stocks_simulator.py:9-21 | the starting ledger is consistent |
| `StockLedger.SellKeepsConsistent` | stocks_simulator.py:262-285 | a sell keeps the ledger consistent |
| `StockLedger.BuyCheckedKeepsConsistent` | stocks_simulator.py:329-341 | the corrected buy keeps the ledger consistent |
| `StockLedger.BuyThenSellAsWritten` | stocks_simulator.py:313-333 | as written, a failed $2000 buy from the start still records the id, breaking consistency; selling that share then succeeds, pays $2000 and leaves -1 shares |
| `StockLedger.BuyThenSellChecked` | stocks_simulator.py:313-333 | with the corrected buy the same two steps both fail and nothing changes |
| `StocksSimulator.Market.constructor` | stocks_simulator.py:4-25 | $1000, no shares, no recorded choices, day 1, and the prices of eleven days ago as the previous prices |
| `StocksSimulator.Market.RecordPrices` | stocks_simulator.py:187-188 | the day's prices are appended to `stocks`; nothing else changes |
| `StocksSimulator.Market.RemoveChoices` | stocks_simulator.py:263-277 | the removal loop leaves `userchoices` as `amount` successive first-copy removals |
| `StocksSimulator.Market.AppendChoices` | stocks_simulator.py:313-327 | the extend loop appends exactly `amount` copies of the id |
| `StocksSimulator.Market.SellStock` | stocks_simulator.py:248-290 | the new ledger and success flag are those of `Sell` at today's price; prices and day are unchanged |
| `StocksSimulator.Market.BuyStock` | stocks_simulator.py:300-341 | the new ledger and success flag are those of `Buy` (as written) at today's price; prices and day are unchanged |
| `StocksSimulator.Market.EndOfDay` | stocks_simulator.py:344-352 | `previous_price` becomes the day's `stocks`, `stocks` and the other lists become empty, the day advances, and the ledger is unchanged |
| `StocksSimulator.Market.TradingDay` | stocks_simulator.py:226-356 | with money left the chosen trade is applied and the day rolls over; with none, only the day advances and every list and the ledger are kept |

## Left out

- Reading and writing CSV files (`pd.read_csv`, `to_csv`). Trace tables and monitoring samples are sequences of rows. A missing column (pandas' `KeyError`) cannot arise with typed rows.
- The trace loader does not check the values of `read/write` or `boot/exec`, and raises nothing for unusual values. The model follows that code and copies any integer.
- The duplicate `get_requests` / `get_operations` definitions (`DataLoader.py:26-37`): the later pair overrides the earlier, and both return the same fields. They are modelled once.
- DataLoader.DataLoaderPintos.GetRequests: returns the field by value. The source returns the list object itself, which a caller could then mutate; that aliasing is not modelled.
- DataLoader.DataLoaderPintos.GetOperations: same aliasing as `GetRequests`, not modelled.
- The two averages of `convert_monitoring_data` (`dataPreprocessing.py:27-30`) are inputs of `ChooseConversion` and `ConvertMonitoringData`. They are a pandas mean over the positive values among the first 100 samples, or 0 when there are none.
- Byte counts are integers. Floating-point rounding of `x / B` before `ceil` or `int` is not modelled, nor are fractional byte counts.
- The printed statistics and warnings of the converters are left out. Each converter fails on an empty input, and the model returns `NoColumns` then. Each fails at its own point:
  - `convert_monitoring_data` fails after its loop. Its empty output table has no `blocksector` column for the statistics (`dataPreprocessing.py:77`).
  - `convert_with_smaller_blocksize` fails the same way (`:145`). It has already written the empty output file (`:143`).
  - `convert_with_cumulative_sectors` fails before its loop. It reports `.iloc[-1]` of an empty cumulative column (`:167`).
- DataPreprocessing.ConvertWithSmallerBlocksize: requires `blockSize > 0`. The source does not check `block_size`; it fails on 0 as soon as a count is positive, and gives meaningless ceilings for negative sizes.
- The `__main__` driver of `dataPreprocessing.py` is left out.
- The price fetches through `yfinance` (`stocks_simulator.py:137-145, 182-188`) are left out. `RecordPrices` and the constructor take the prices as parameters, already rounded to cents.
- The `input()` prompts and retry loops, the login, sign-up and password-reset flows (`stocks_simulator.py:45-133`), and `time.sleep` are left out. The day's choice is an `Action` parameter of `TradingDay`.
- The daily price differences and percentages, the mark-to-market update of `money` from them, the gain/loss lists and the `gain_loss` text (`stocks_simulator.py:162-173, 190-212`) are float arithmetic and printing. They are not modelled. `TradingDay` therefore models only the part of a day after them.
- `exit` at `stocks_simulator.py:296` is a bare name, so it does nothing; the model treats that path as `NoTrade`.
- StocksSimulator.InClass, StocksSimulator.Validity: character classes are ASCII only. Python's `isupper`, `islower` and `isdigit` also accept other Unicode letters and digits.
- StocksSimulator.StocksOwned: takes integer counts and so does not model `str()` of a float count.
- The cache environment and its agents (`Cache`, the DQN and LRU agents) are not part of this model. Their source is not among the files modelled.
- `run_openeuler_filesys.py` (apart from its default-argument call of the loader) and `optimize_dqn.py` are not part of this model, nor is the front end.

## Findings

| source | as written | input that shows it | evidently intended | confidence | as-written member | corrected member |
|---|---|---|---|---|---|---|
| stocks_simulator.py:313-333 | the buy branch appends `amount1` copies of the company id to `userchoices` before checking the cost, so a failed purchase still records shares that are never paid for | from the start ($1000), buy 1 share of company 1 at $2000: it fails, then sell 1 share of company 1: it succeeds, pays $2000 and leaves `stocks1[0] == -1` | record the ids only when the purchase goes through, so the count of each id in `userchoices` always equals the shares held | not executed | `StockLedger.BuyThenSellAsWritten` | `StockLedger.BuyCheckedKeepsConsistent` |

The trading loop (`Market.BuyStock`) keeps the as-written `Buy`, because that is
what the program does. The corrected `StockLedger.BuyChecked` and the lemmas
about it show the intended behaviour. Every sell and every corrected buy keeps
holdings equal to recorded ids, so no holding can go negative.

`FilesysPipeline.DefaultLoadKeepsFirstSample` records one consequence of the
converters and the loader as written. The evaluation script loads a converted
trace with the default `boot=False`, and the converters mark only sample 0 as
boot. So that load sees just two accesses, however long the trace is. It is
stated as a property of the code, not listed as a finding.

A second consequence of the trading loop as written is recorded here, but not proved and not listed as a finding.
- A day that starts with no money (`stocks_simulator.py:354-356`) only advances the day. It clears neither `stocks` nor `previous_price`, and `Market.TradingDay` keeps those lists the same way.
- The next day then appends five more prices, so `stocks` holds ten entries (`:187-188`).
- The price-difference loop then reads `previous_price[5]`, which does not exist (`:190-191`).
- One way to get there: from $1000, buy 4 shares at $250 each. If the next day's price of that company does not rise, that day starts with no money.
