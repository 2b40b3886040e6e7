# lbgpfx data pipeline — a Dafny model

lbgpfx collects daily snapshots of the Chinese A-share **limit-up pool** (涨停股池), the
**limit-down pool** (跌停股池) and the **explode pool** (炸板股池, stocks that touched the limit
and then fell back). It writes each pool as `{date, count, data}` JSON files, one per date. It
then checks those snapshots for completeness and refetches the missing ones, and merges them
into the `ladderData` JavaScript table that the consecutive-limit-up "ladder" page reads. It
also fetches daily k-lines (candles) for every listed stock, keeps only the stocks that ever hit
limit-up, and serves a newest-first k-line lookup.

This project models the logic of those scripts in Dafny and proves what they promise. Each
source script is one module:

- `Common` covers the Python semantics the scripts depend on: `str.replace`, `split`/`join`,
  `strip`, ASCII `lower`, string ordering, JSON truthiness and `sorted` of a set.
- `Snapshots` holds the shared vocabulary: the three pool categories, the snapshot document, and
  the snapshot store. The store is a class whose `files` map stands for the data directory.
- `CheckRefetch` models `check_and_refetch.py`: date discovery, the per-file classification into
  missing, corrupt or zero-count, the tallies, the y/N gate, the refetch loop and the single-date
  check.
- `HistoryFetch` models `fetch_history_data.py`: the response decoder, the pool URLs, the
  trading-date walk, the fetch and write loop with its totals, the daily statistics, and the
  `lbc` (consecutive-board count) histogram.
- `OptimizeKline` models `optimize_kline_data.py`: `normalize_code`, the collection of limit-up
  codes, the k-line file filter, and the merge into one map.
- `LadderData` models `generate_ladder_data.py`: envelope extraction, `today` file-name parsing,
  the date → category → records merge in which `today` wins, newest-first emission, and the
  trailing-comma trim.
- `DataFetcher` models `data_fetcher.py`: `validate_data`, the consecutive-day counter, the two
  pool-row parsers with their exchange-suffix, ST and price rules, and the source preference of
  `_fetch_real_limit_up`.
- `KlineAll` models `fetch_kline_all.py`: `zfill` and board classification, deduplication of the
  stock list, `clean_code`, the rate-limit wait, the save-file name and how it maps back to a code,
  the incremental-update schedule, and the keep-last date merge.
- `StockKline` models `stock_kline.py`: `normalize_stock_code`, the `sh`/`sz` prefix, and the
  pipeline of traded-row filter, newest-first sort and `head(days)`.

Network requests, files that are read, the console answer and the clock are parameters:

- Every HTTP or AKShare request is an oracle function. `Fetcher` (the pool requests) and
  `History` (a stock's daily history) answer with the decoded records; a failure the source
  catches shows up as the empty list it returns then. Of the k-line oracles, `KlineAll.HistApi`
  answers `Raised` with the exception's message when the request raises, and
  `StockKline.HistApi` answers `None` then.
- A directory is a sequence of (file name, parsed-or-unparsable document) pairs, or a map keyed
  the same way.
- The answer typed at the y/N prompt, "today" and `START_DATE` are arguments. `START_DATE` is
  `20241001` unless `--start` rebinds it, so `FetchStockKline` and the update list take it as a
  parameter.
- Dates in `get_trading_dates` and in the incremental k-line update are day ordinals. Ordinal 1 is
  Monday 0001-01-01; the default `START_DATE`, 2024-10-01, is ordinal 739160.

## Model

| member | source | states |
|---|---|---|
| Common.SortedOf | check_and_refetch.py:55 | `sorted(dates_with_data)` lists each discovered date exactly once, in strictly ascending string order. |
| Common.AscendingUnique | check_and_refetch.py:55 | Two strictly ascending listings of the same elements are equal, so the result of `sorted` on a set is fixed by the set. |
| Snapshots.SnapshotDoc | fetch_history_data.py:211-213 | A snapshot is an object with exactly the keys `date`, `count` and `data`; `count` is the number of records and `data` holds the records themselves. |
| Snapshots.FileNameDate | check_and_refetch.py:43 | The date read back from the file name `<date>.json` is the date it was written under, for dates without a dot. |
| Snapshots.FetchDateAt | check_and_refetch.py:160-196 | After one date is fetched, a category's file for that date holds the fresh snapshot exactly when the fetched list is non-empty. Every other file is unchanged. |
| Snapshots.AfterFetchAt | check_and_refetch.py:155-199 | After a run over several dates, a file holds the snapshot from the last date that produced it with a non-empty result. Files that no date wrote keep their old state. |
| Snapshots.Store.WriteSnapshot | check_and_refetch.py:163-165 | Writing creates or overwrites exactly `<category>/<date>.json` with the snapshot document and touches no other file. |
| CheckRefetch.FileIssue | check_and_refetch.py:68-104 | Each category yields at most one issue, and it names that category. The issue is "missing" iff the file is absent, and "corrupt" iff it does not parse or is not a JSON object (`data.get` raises on a list, and the `except` reports the file as corrupt). "Count is 0" holds iff the file is an object whose `count`, defaulting to 0, equals 0. A negative count raises no issue. |
| CheckRefetch.DateIssues | check_and_refetch.py:65-104 | A date has at most three issues, one per category and no category twice. Each listed issue is that category's issue, and the list is empty iff no category has one. |
| CheckRefetch.DiscoveryIgnoresOtherCategories | check_and_refetch.py:41-44 | Adding, changing or removing a file in `limit_down/` or `explode/` never changes which dates are checked. |
| CheckRefetch.LimitUpFileIsDiscovered | check_and_refetch.py:41-44 | Every `limit_up/<date>.json`, for a date without a dot, puts that date on the list of dates to check. |
| CheckRefetch.DiscoverDates | check_and_refetch.py:38-44 | The loop over `limit_up/` collects exactly the `.json` names with every `.json` removed. |
| CheckRefetch.IncompleteMembers | check_and_refetch.py:106-114 | A date goes to the refetch list iff it was checked and has an issue. The refetch count plus the complete count is the number of dates checked. |
| CheckRefetch.IncompleteAscending | check_and_refetch.py:55-108 | The refetch list keeps the ascending order of the dates checked. |
| CheckRefetch.CheckAll | check_and_refetch.py:38-114 | The checked dates are exactly the discovered dates, once each, in ascending order. The refetch list is their incomplete dates, in order. `total == to_refetch + already_complete`. |
| CheckRefetch.WantsRefetchExactly | check_and_refetch.py:127-128 | The refetch goes ahead iff the answer, with surrounding whitespace removed, is `y` or `Y`. |
| CheckRefetch.CheckOnlyNeverRefetches | check_and_refetch.py:286-293 | In `--check-only` mode the replacement prompt always answers `n`, which never passes the gate. |
| CheckRefetch.NonEmptyDatesBound | check_and_refetch.py:155-169 | The number of dates with a non-empty limit-up result is at most the number of dates. It equals that number iff every date's fetch was non-empty. |
| CheckRefetch.Refetch | check_and_refetch.py:155-199 | The files end as the snapshot-writing run leaves them. `success_count` counts the dates with a non-empty limit-up result, and `success_count + fail_count` is the number of dates. |
| CheckRefetch.CheckAndRefetch | check_and_refetch.py:38-135 | The check selects exactly the incomplete discovered dates, in ascending order, with consistent tallies. It refetches iff some date is incomplete and the answer passes the gate. Otherwise the store is unchanged. |
| CheckRefetch.CheckSpecificDate | check_and_refetch.py:210-250 | The result is true iff each of the three files exists, parses, and has a count that is a number or bool and not 0. |
| CheckRefetch.SpecificAgreesWithIssues | check_and_refetch.py:231-250 | A file the single-date check accepts raises no issue in the batch check. Conversely, a file with no batch issue passes the single-date check unless its count is neither a number nor a bool. |
| HistoryFetch.Decode | fetch_history_data.py:87-104 | A bare array is returned unchanged. An object with `code == 200` yields its `data` if that is an array, else `data.get("list", [])` if it is an object, else `[]`. Any other code, and any other shape, yields `[]`. |
| HistoryFetch.Fetch | fetch_history_data.py:83-117 | A timeout, a request error, an error HTTP status or an undecodable body all give `[]`. Only a successful response with a body reaches the decoder. |
| HistoryFetch.DecodeWireFormats | fetch_history_data.py:89-99 | Each of the three wire formats gives back the record list it carries: a bare list, `{code:200, data:[…]}` and `{code:200, data:{list:[…]}}`. |
| HistoryFetch.DecodeRejects | fetch_history_data.py:93-104 | A non-200 code, a `data` that is neither a list nor an object, and a missing `data` each decode to `[]`. |
| HistoryFetch.FetchNonEmptyHadBody | fetch_history_data.py:83-117 | A non-empty fetch result implies that the request succeeded with a non-error status and a parsed body. |
| HistoryFetch.PoolSegment | fetch_history_data.py:44-70 | Each pool's path segment is four letters long. |
| HistoryFetch.PoolUrl | fetch_history_data.py:44-70 | The URL starts with `<base>/hs/pool/`, carries the pool's segment right after it, and ends in `/<date>?token=<token>`. |
| HistoryFetch.PoolUrlNamesCategory | fetch_history_data.py:44-70 | The pool is recovered from its URL, so the three URLs differ: `ztgc`, `dtgc` and `zbgc` are distinct. |
| HistoryFetch.TradingDates | fetch_history_data.py:145-152 | The dates strictly ascend, each lies in `[start, end]` and is a weekday, and every weekday in the range is listed. |
| HistoryFetch.GatheredTotal | fetch_history_data.py:207-243 | A category's running total equals the length of its collected list. It is 0 iff every fetch for that category was empty. |
| HistoryFetch.FetchOneDate | fetch_history_data.py:204-248 | One date's three fetches return the oracle's lists. The store gains a snapshot exactly for the categories whose list is non-empty. |
| HistoryFetch.FetchRange | fetch_history_data.py:174-252 | For an empty date list there is no result and nothing is written, since `trading_dates[0]` fails there. Otherwise the store ends as the write-if-non-empty run leaves it. Each category's total is the sum of its result lengths, the `all_*` lists are those results joined in date order, and `dates` counts the dates. |
| HistoryFetch.DailyCount | fetch_history_data.py:290-309 | A missing file, an unreadable one or one that is not an object contributes count 0. Otherwise the count is the file's `count` field, or 0 when it has none. |
| HistoryFetch.DailyStats | fetch_history_data.py:280-311 | There is one row per trading date, in order. Each row carries that date's `count` per category, and 0 where the file is missing or unreadable. |
| HistoryFetch.DailyCountAfterFetch | fetch_history_data.py:290-309 | After the fetch run, a category's daily count for a fetched date is the number of records fetched, if there were any. Otherwise it is whatever the directory held before. |
| HistoryFetch.TodayFileNamesDistinct | fetch_history_data.py:367-404 | Two different (pool, date) pairs never get the same `today` file name, so no pool's file overwrites another's. |
| HistoryFetch.TotalRemove | fetch_history_data.py:421-424 | Removing one key takes that key's count off the histogram's total. |
| HistoryFetch.HistogramCounts | fetch_history_data.py:421-424 | The histogram has an entry for a key iff some record has that `lbc` value, and the entry is the number of such records. |
| HistoryFetch.HistogramTotal | fetch_history_data.py:421-424 | The counts of the histogram sum to `len(limit_up)`. |
| HistoryFetch.LbcHistogram | fetch_history_data.py:421-424 | The loop fails, with no histogram, iff some record's `lbc` cannot be a dict key. Otherwise it builds exactly the histogram above. |
| OptimizeKline.NormalizeCode | optimize_kline_data.py:78-97 | `""` stays `""`. A code has at least six characters once its dots are removed and starts with 6, 0/3 or 4/8 exactly when the result is those six characters plus `.SH`, `.SZ` or `.BJ`. Otherwise the input comes back unchanged, dots included. |
| OptimizeKline.NormalizedShape | optimize_kline_data.py:84-97 | The result is either a 9-character `dddddd.XX` code with a market suffix or the input itself. |
| OptimizeKline.NormalizeIdempotent | optimize_kline_data.py:78-97 | Normalising a normalised code changes nothing. |
| OptimizeKline.StockStep | optimize_kline_data.py:61-67 | A record contributes a code only when its `dm` is non-empty. |
| OptimizeKline.ReadStocks | optimize_kline_data.py:61-67 | The loop over one document's records yields the specified list of normalised non-empty `dm` codes. |
| OptimizeKline.CodesOfAdd | optimize_kline_data.py:47-67 | Reading one more file adds exactly that file's codes to the set. |
| OptimizeKline.CollectCodes | optimize_kline_data.py:36-75 | The collected set is the union of the codes of every `limit_up/*.json` file. |
| OptimizeKline.StockCodesNormalized | optimize_kline_data.py:61-67 | Every collected code is already normalised, and each is `normalize_code` of the non-empty `dm` of some record. |
| OptimizeKline.CollectedCodesNormalized | optimize_kline_data.py:36-75 | Every code in the final set is non-empty and normalised. |
| OptimizeKline.SkipsNonListDocuments | optimize_kline_data.py:54-59 | A document that is neither an object with `data` nor a list contributes no codes. |
| OptimizeKline.CsvFiles | optimize_kline_data.py:118 | The candidate files are exactly the `.csv` names other than `stock_list.csv`, `failed_stocks.csv` and `all_stocks_kline.csv`. |
| OptimizeKline.KeptMembers | optimize_kline_data.py:125-133 | A candidate file is kept iff the normalised code read from its name is in the limit-up set. |
| OptimizeKline.KeptIsSubsequence | optimize_kline_data.py:122-133 | The kept files keep the listing's order: they are a subsequence of it. |
| OptimizeKline.FilterKlineFiles | optimize_kline_data.py:114-141 | The loop returns the kept files, and `len(kept) + deleted_count` is the number of candidate files. |
| OptimizeKline.KeptExactly | optimize_kline_data.py:118-133 | A file is kept iff it is listed, is a k-line `.csv`, and its code is in the set. The three listing files are never kept. |
| OptimizeKline.MergeKlines | optimize_kline_data.py:198-212 | The loop builds the specified code → rows map and the record total. |
| OptimizeKline.LastLoaded | optimize_kline_data.py:201-212 | The index found for a code is a position in `kept`, or −1. |
| OptimizeKline.LastLoadedIsLast | optimize_kline_data.py:201-212 | That index is the last kept file with the code and a non-empty k-line. No later file qualifies. |
| OptimizeKline.MergedEntries | optimize_kline_data.py:210-211 | A code is in the merged map iff some kept file with that code loaded a non-empty k-line. Its rows are those of the last such file. |
| OptimizeKline.MergedNonEmpty | optimize_kline_data.py:210-211 | No code maps to an empty k-line. |
| OptimizeKline.DuplicateCodeCountedTwice | optimize_kline_data.py:210-212 | Two files with the same normalised code leave only the later one's rows, but `total_records` counts both. |
| LadderData.LoadJsonFile | generate_ladder_data.py:11-20 | A missing file gives `[]` and an unparsable one fails. An object with `data` gives `data`, a list gives itself, and anything else gives `[]`. |
| LadderData.LoadSnapshot | generate_ladder_data.py:17-18 | Loading a snapshot written by the fetchers gives back exactly its records. |
| LadderData.TodayNameRebuildsStem | generate_ladder_data.py:52-55 | The kind and date read from a `today` name, joined by `_`, give back the name without `.json`. |
| LadderData.TodayKindHasUnderscore | generate_ladder_data.py:52-55 | A parsed `today` name always has a kind containing `_`, so the kind is never `explode`. |
| LadderData.ParseThreeFields | generate_ladder_data.py:52-55 | `a_b_<date>.json` parses to kind `a_b` and that date. |
| LadderData.TodayLimitNamesParse | generate_ladder_data.py:52-55 | The `limit_up_<date>.json` and `limit_down_<date>.json` names `fetch_single_date` writes parse back to their category and date. |
| LadderData.TodayExplodeNameSkipped | generate_ladder_data.py:52-53 | The `explode_<date>.json` name `fetch_single_date` writes has only two parts and is skipped. |
| LadderData.PutLookup | generate_ladder_data.py:40-44 | Storing `merged[date][kind]` sets that one cell and leaves every other date and kind as it was. |
| LadderData.ApplyAllFails | generate_ladder_data.py:13-15 | Once one file fails to parse, the whole merge fails whatever comes after. |
| LadderData.LastFor | generate_ladder_data.py:40-61 | The index found is the last entry with that date and kind, or −1 when there is none. |
| LadderData.LadderLookup | generate_ladder_data.py:40-61 | `merged[date][kind]` exists iff some entry has that date and kind. It holds the loaded content of the last such entry. |
| LadderData.LadderDates | generate_ladder_data.py:40-58 | The merged map's dates are exactly the dates of the entries. |
| LadderData.LastForAppend | generate_ladder_data.py:46-61 | An entry for a date and kind in the later part of the scan hides every earlier one. |
| LadderData.TodayOverwrites | generate_ladder_data.py:46-61 | A `today` file overwrites the `history` entry for the same date and kind. |
| LadderData.ScanHistoryDir | generate_ladder_data.py:34-44 | Scanning a history directory applies exactly its `.json` entries, in listing order, to the map built so far. |
| LadderData.ScanToday | generate_ladder_data.py:47-61 | Scanning `today` applies exactly its parsable entries, in order, to the map built so far. |
| LadderData.MergeLadder | generate_ladder_data.py:26-61 | The merged map is the specified fold of the history entries, category by category, and then the `today` entries. |
| LadderData.HistoryFileLands | generate_ladder_data.py:33-44 | Every `history/<category>/<date>.json` yields a `merged[date][category]` cell. |
| LadderData.DatesNewestFirst | generate_ladder_data.py:64 | Each merged date is emitted exactly once, in strictly descending order. |
| LadderData.RStrip | generate_ladder_data.py:82 | `rstrip(',')` returns a prefix that does not end in a comma, and it removes only commas. |
| LadderData.Header | generate_ladder_data.py:68-74 | The header text ends with a newline. |
| LadderData.EmitLadder | generate_ladder_data.py:64-83 | The dates are the merged dates, newest first. The text is the header plus one `"<date>": <json>,` line per date, with trailing commas stripped, followed by `\n};\n`. |
| LadderData.TrimWithoutDates | generate_ladder_data.py:82 | With no dates, the header is left as it is. |
| LadderData.TrimRemovesLastComma | generate_ladder_data.py:80-82 | With at least one date whose JSON does not end in a comma, exactly the final comma goes. |
| DataFetcher.AllPresent | data_fetcher.py:116 | True iff every listed field is a key of the record. |
| DataFetcher.AllTruthy | data_fetcher.py:116 | True iff every listed field's value is truthy. |
| DataFetcher.ValidateData | data_fetcher.py:115-116 | A record is valid iff `code`, `name`, `price` and `limit_up_time` are all present and truthy. |
| DataFetcher.FalsyFieldRejected | data_fetcher.py:116 | A present but falsy required field, such as `""`, `0` or `null`, makes the record invalid. |
| DataFetcher.LeadingRun | data_fetcher.py:304-308 | The count is a number of leading limit-up days: every counted day is limit-up, and the next day, if any, is not. |
| DataFetcher.LeadingRunUnique | data_fetcher.py:304-308 | That property determines the count. |
| DataFetcher.CalculateConsecutiveDays | data_fetcher.py:301-309 | The loop with `break` returns the leading limit-up run of `history[1:]`. It is 0 when the history has at most one day, and at most `len(history) - 1`. |
| DataFetcher.EmAgreesWithNormalize | data_fetcher.py:179-188 | On a 6-character code without a dot, the em parser's suffix rule is `normalize_code`. |
| DataFetcher.EmCodeIsNormal | data_fetcher.py:179-188 | Codes produced by the em parser are already normalised. |
| DataFetcher.LimitListLeavesBeijingBare | data_fetcher.py:264-269 | Codes starting with 4 or 8 stay bare in the limit-list parser but gain `.BJ` in the em parser. |
| DataFetcher.ParsersAgreeOffBeijing | data_fetcher.py:179-188 | On every other code the two parsers produce the same full code. |
| DataFetcher.IsStExactly | data_fetcher.py:191 | `is_st` holds iff `ST` occurs in the name; the `*ST` test adds nothing. |
| DataFetcher.RowRecordFields | data_fetcher.py:168-246 | A row yields a record iff its price converts and is positive and its other conversions succeed. The record carries the parser's full code, the name, the price, the limit-up time (default `14:59:00`), the consecutive-day count from the code's history, and the ST flag. |
| DataFetcher.ParsedFromRows | data_fetcher.py:168-248 | The parsed list is never longer than the input. Its members are exactly the records of the rows that were not skipped. |
| DataFetcher.ParseRow | data_fetcher.py:168-246 | A single row is parsed, or skipped, as stated above. |
| DataFetcher.ParseRows | data_fetcher.py:156-299 | The loop with `continue` returns the specified parsed list, which is never longer than the input. |
| DataFetcher.FetchRealLimitUp | data_fetcher.py:120-154 | A failed request, or an unparsable date under the em parser, falls back to the scan. A non-empty em frame wins. Otherwise the limit list is parsed, and two empty frames give `[]`. |
| KlineAll.ZFill | fetch_kline_all.py:68 | `zfill(6)` leaves long enough codes alone. A shorter one is padded to width with zeros, placed after any leading sign. |
| KlineAll.ClassifyByPrefix | fetch_kline_all.py:72-91 | 688 → `.SH`/科创板 and any other 6 → `.SH`/沪市主板. 300 → `.SZ`/创业板, 000 or 001 → `.SZ`/深市主板, any other 0 or 3 → `.SZ`/其他. 4 or 8 → `.BJ`/北交所. Anything else stays bare, labelled 其他. |
| KlineAll.ClassifySuffixMatchesBoard | fetch_kline_all.py:72-91 | The suffixed code extends the code. `.SH` goes with exactly the two Shanghai boards, `.BJ` with exactly 北交所, the Shenzhen boards carry `.SZ`, and a bare code is 其他. |
| KlineAll.ClassifyAgreesWithNormalize | fetch_kline_all.py:72-91 | On a 6-character code without a dot, the listing's suffix equals `normalize_code` and the em parser's full code. |
| KlineAll.ShortCodeIsShenzhen | fetch_kline_all.py:68-85 | A short unsigned code is zero-padded into a `.SZ` code. With at most three digits it lands on the Shenzhen main board. |
| KlineAll.DedupeFirstMembers | fetch_kline_all.py:96 | `drop_duplicates(subset=['code'])` keeps exactly the rows whose code did not occur earlier. |
| KlineAll.DedupeFirstUnique | fetch_kline_all.py:96 | After deduplication all codes are distinct. |
| KlineAll.DedupeFirstCovers | fetch_kline_all.py:96 | Every listed code survives deduplication. |
| KlineAll.GetAllStocks | fetch_kline_all.py:47-114 | A failed listing request gives `[]`. Otherwise the loop classifies every row, in order, and deduplicates by code, keeping the first. The codes are unique. |
| KlineAll.OtherSuffixKept | fetch_kline_all.py:139 | Removing one exchange suffix leaves a code with a different suffix intact. |
| KlineAll.CleanCodeInvertsClassify | fetch_kline_all.py:139 | `clean_code` returns the bare six digits of any classified code. |
| KlineAll.RateLimitWait | fetch_kline_all.py:176-180 | There is a wait iff the error contains 请勿频繁请求 or 请求过快, and then it is `5 + 5*retry` seconds. |
| KlineAll.OrDefault | fetch_kline_all.py:134-135 | An absent or empty date falls back to the default. |
| KlineAll.WithStock | fetch_kline_all.py:159-160 | Every row gains the stock's code and name, and nothing else changes. |
| KlineAll.FetchStockKline | fetch_kline_all.py:117-187 | The request uses the bare code, the given start or else `START_DATE`, and the given end or else today. A raise fails with its message and the throttling wait. An empty or missing frame fails with 无数据. Otherwise the result is a success with the stamped rows, their count and the dates used. |
| KlineAll.FetchAsksForBareCode | fetch_kline_all.py:117-187 | For a listed six-digit code the oracle is asked for the bare code. A raise fails with its message and wait, no frame or an empty one fails, and otherwise the rows come back stamped with the listed code. |
| KlineAll.DefaultRetryWaitsFive | fetch_kline_all.py:178 | Both callers omit `retry`, so a throttled request always waits 5 seconds. |
| KlineAll.SaveFileNameRoundTrip | fetch_kline_all.py:202-203 | For a code without `_`, the save-file name maps back to the code under the k-line optimiser's `.csv`-strip and `_`→`.` rule. |
| KlineAll.ListedFileCode | fetch_kline_all.py:202-203 | A classified stock's file is a k-line `.csv` the optimiser reads back as that stock's code. |
| KlineAll.ParsedDays | fetch_kline_all.py:406 | The date column parses iff no cell is malformed. The parsed dates are then exactly the dates of the cells; blank cells (`NaT`) are skipped. |
| KlineAll.Max | fetch_kline_all.py:406 | The last date is a listed date, and no listed date is later. |
| KlineAll.TaskForCases | fetch_kline_all.py:395-430 | A stock without a file is scheduled from `START_DATE`. A readable file whose date column parses and holds a date is scheduled from the day after its newest date, only when that day is not after today; the task's data start is that newest date, and every stored date is before the fetch start. An unreadable, empty or undated file, a malformed date column, or one with only blank dates schedules nothing. Every task ends today. |
| KlineAll.UpdateListMembers | fetch_kline_all.py:394-430 | There is at most one task per stock, the tasks are exactly the scheduled ones, and all of them end today. |
| KlineAll.BuildUpdateList | fetch_kline_all.py:389-430 | The loop builds the specified update list from the candidate files. |
| KlineAll.KeepLastMembers | fetch_kline_all.py:483 | `drop_duplicates(subset=['日期'], keep='last')` keeps exactly the rows whose date does not recur later. |
| KlineAll.KeepLastUnique | fetch_kline_all.py:483 | The kept rows have distinct dates. |
| KlineAll.KeepLastCovers | fetch_kline_all.py:483 | Every date of the input survives. |
| KlineAll.InsertByDate | fetch_kline_all.py:484 | Inserting a row of a new date keeps the dates ascending and adds exactly that row. |
| KlineAll.SortByDate | fetch_kline_all.py:484 | Sorting rows of distinct dates gives the same rows in ascending date order. |
| KlineAll.MergeRowsProps | fetch_kline_all.py:479-485 | With existing rows, the merge yields distinct dates in ascending order. Every row comes from old or new data, and every date of either survives. |
| KlineAll.FreshRowWins | fetch_kline_all.py:481-483 | On a date clash the newly fetched row is the one kept. |
| KlineAll.MergeWithoutExisting | fetch_kline_all.py:479-485 | Without existing rows, the fetched data is saved as it is. |
| StockKline.NormalizeStockCode | stock_kline.py:23-32 | After trimming, a code with a case-insensitive `sh`/`sz` prefix loses exactly those two characters. Any other code is only trimmed. |
| StockKline.DropsAnyCasePrefix | stock_kline.py:30-31 | `sh`, `SH`, `Sz` and every other casing of the prefix is dropped. |
| StockKline.NormalizeNotIdempotent | stock_kline.py:30-32 | Only one prefix goes: a doubled prefix (e.g. `shsh600000`) normalises to the code with one prefix left (`sh600000`), and a second normalisation gives a different result (`600000`). |
| StockKline.MarketPrefix | stock_kline.py:49 | The prefix is `sh` iff the symbol starts with `6`, and `sz` otherwise. |
| StockKline.FullSymbolRoundTrip | stock_kline.py:28-50 | Normalising the prefixed request symbol gives back the symbol. |
| StockKline.NormalizedSymbolRoundTrip | stock_kline.py:41-50 | The prefixed form of any normalised code normalises back to that code. |
| StockKline.TradedRows | stock_kline.py:83 | The filter keeps exactly the rows with a positive volume; a NaN volume counts as not positive. |
| StockKline.NewestFirstPairwise | stock_kline.py:86 | Newest first between neighbours means newest first between any two rows. |
| StockKline.InsertNewestFirst | stock_kline.py:86 | Inserting into a newest-first list keeps it newest first and adds exactly that row. |
| StockKline.SortNewestFirst | stock_kline.py:86 | `sort_values('date', ascending=False)` is a permutation of the rows into newest-first order. |
| StockKline.Head | stock_kline.py:89 | `head(n)` is a prefix of length `min(n, len)` for `n ≥ 0`, and all but the last `-n` rows for negative `n`. |
| StockKline.KlineRowsProps | stock_kline.py:83-89 | Every returned row comes from the frame and traded. They are newest first, at most `days` of them, and never more than the traded rows. |
| StockKline.KlineRowsAreNewest | stock_kline.py:86-89 | No traded row left out by `head(days)` is newer than a returned row. |
| StockKline.FetchKlineAkshare | stock_kline.py:35-95 | The window is the `2 * days` days ending today. A window whose span does not fit a `timedelta`, or whose start is not a representable date, raises `OverflowError` and gives `None`. Otherwise the request uses the prefixed normalised symbol and that window. The result is `None` iff the request raised or returned an empty frame, and otherwise the traded, newest-first, truncated rows. |
| StockKline.LongWindowFails | stock_kline.py:45 | A window reaching back to or before 0001-01-01 gives `None`, for example 400000 days asked for in 2025. |

## Left out

- Network access is out. Every `requests.get` and `ak.*` call is an oracle parameter, and pytdx is not modelled.
- The Flask routes of `stock_kline.py`, including the OPTIONS → 204 branch, and all of `kline_server.py` are out: they are HTTP glue.
- `config.py` holds only constants. The token and base URL are parameters of `PoolUrl`.
- The concurrent `ThreadPoolExecutor` fan-out of `fetch_all_klines` and `update_to_latest` is out. Only the per-stock logic is modelled: classification, fetch, file name, schedule and merge.
- The aggregate CSV writes are out: `stock_list.csv`, `failed_stocks.csv` and `all_stocks_kline.csv`. So are `merge_all_klines` and the `fetch_all_klines` driver loop. They are pandas concatenation plus I/O.
- The random mock generators in `data_fetcher.py` are out: they are nondeterministic.
- `_fetch_limit_up_by_scan` is a fallback value that `FetchRealLimitUp` takes as a parameter.
- Floating point is out:
  - the `is_limit_up` heuristic, which becomes a JSON field read by `LimitUpDay`
  - the one-word-board tolerance
  - market-cap and turnover conversions
  - `explode_rate`, file sizes and progress speeds
  - the `float()` parsing in `load_and_simplify_kline`.
- Price conversion is modelled only as "converts or not". The other numeric `float(row.get(...))` conversions of a row are one flag, `othersConvert`.
- `_parse_em_limit_up_data`'s `is_new`/`days_listed` are out. They depend on the clock and on a per-stock info request. The `sector`, `turnover`, `market_cap`, `order_amount`, `open`/`low` and `is_one_word` fields are not stored in the record (see above).
- `FetchRealLimitUp`: whether `strptime` accepts the date string is the parameter `dateParses`. Date parsing and formatting are not modelled.
- `time.sleep`, `datetime.now()`, `input()`, `print` and logging are out. "Today" and the answer are parameters. The prompt text and report lines are not modelled.
- JSON and CSV encoding and decoding are out. A file is already parsed or unparsable (`FileState`), and `json.dumps` of a day's map is a parameter of `EmitLadder`.
- Directory-existence checks and `os.makedirs` are out. A missing directory is an empty listing.
- `TradingDates`: dates are day ordinals, and the conversion to and from `YYYY-MM-DD` text is not modelled. The clock-dependent choice of `base_start`/`base_end` in `get_trading_dates` is out, and the range is a parameter. In `fetch_kline_akshare` the clock reading is the parameter `today`, a day ordinal; the time of day is not modelled.
- `FetchKlineAkshare`: the oracle receives the window as day ordinals, not as the `YYYYMMDD` text `strftime` gives it, and the end of the window is the whole day `today`.
- `TaskFor`: a date column with only blank cells has the maximum `NaT`. The model takes pandas' behaviour that `NaT.strftime` raises inside the `try`, so that stock gets no task.
- `TaskForCases`: the comparison `start_str <= TODAY` of `YYYYMMDD` strings is modelled as a comparison of day ordinals. The two agree for four-digit years.
- `fetch_single_date`'s printout of the first records and its report lines are out, so the `stock['mc']`-style KeyError it can raise while printing is too.
- `sorted(consecutive.keys(), reverse=True)[:10]` is out, along with its `TypeError` on mixed key types. `LbcHistogram` models the counting loop.
- `SortByDate`/`SortNewestFirst`: pandas sorts are not stable by default, so the order among rows of one date is unspecified. After the keep-last dedupe there are no ties in `SortByDate`, and `SortNewestFirst` states only the newest-first order and the permutation.
- `MergeRows`: a failure of `pd.to_datetime` on a malformed date cell is not modelled. Dates are already parsed ordinals.
- `StockKline.DayRow`: NaN from `to_numeric(errors='coerce')` is `None`, and `pd.to_datetime` on malformed dates is not modelled.
- `Lower`, `Strip`: only ASCII letters are lower-cased, and `strip` removes the ASCII and common Unicode whitespace characters. Full Unicode case folding is not modelled.
- The JavaScript helper functions appended to `ladder_data.js` are fixed text and are not modelled.
- `HistoryFetch.Decode`: a `data.list` that is not a list is returned as it is, as in the source. The fetch loop's oracle already yields a record list, so a non-list there is not followed further.
