# Sina real-time quote collector, modelled in Dafny

This project models the sequential core of a collector for Sina's `hq_str` real-time quote feed:

- **Quote line parser.** A feed line has the form `var hq_str_<ticker>="<f1>,...,<fn>";`. The parser reads it into a `RealTimeQuote`: the ticker plus 32 positional fields. The whole-reply parser maps the line parser over the `\n`-separated lines.
- **Ticker universe.** This is the list of tickers to request. Rows of basic stock information are filtered by the bad-name keyword check (`退`, `ST`, `N`). The remaining numeric codes are zero-padded to six digits and given their exchange marker (`sh`, `bj` or `sz`).
- **Trading-hours gate.** A moment is trading time when:
  - the holiday calendar lists the day as a workday;
  - the day is Monday to Friday;
  - the time is strictly inside 09:30–11:30 or 13:00–15:00.
- **Market manager.**
  - It accepts a reply only when the status is 200 and the body has no `FAILED`.
  - It cuts the ticker list into request batches of 200.
  - Its per-ticker quote buffer is a Python dict that keeps insertion order. Every parsed quote is appended to its ticker's list.
- **Stock manager.** This is the older twin of the market manager. It has the same acceptance rule and keeps its quotes in a record table that is never drained.
- **Producer.** One turn of its loop works like this:
  - outside trading time, nothing happens;
  - otherwise it runs one fetch of every batch into the buffer and advances a counter;
  - when the counter reaches 10, it pops every buffered list onto the consumers' queue, in key insertion order, and resets the counter.

Both helper modules are modelled:
- `CommonUtils` is the pure functions of the common helper module.
- `RootUtils` is the older top-level copy, written statement by statement. Each of its methods is proved equal to its `CommonUtils` counterpart on every input.

Python built-ins are written out in `Text`, with their corner cases:
- `strip()` with Python's whitespace set;
- `split` with a one-character separator, whose result is never empty;
- `join`;
- the substring test `in`;
- `startswith` with a tuple;
- negative-index suffixes;
- `zfill`, including its sign rule;
- `str(n)`.

`Calendar` gives the part of `datetime` the gate reads:
- the ISO weekday, computed from the proleptic Gregorian ordinal;
- the time of day, in microseconds since midnight.

The modules are:
- `Wrappers`: `Option`, `Result`.
- `Text`.
- `Const`: the fixed tables.
- `Records`: the two record layouts.
- `Calendar`.
- `CommonUtils`.
- `RootUtils`.
- `Batching`.
- `Market`.
- `StockManager`.
- `Producer`.

## Model

| member | source | states |
|---|---|---|
| Text.Strip | common/utils.py:44 | `strip()` returns the slice of the line between leading and trailing whitespace. Everything cut off is whitespace, and the result neither starts nor ends with whitespace. The result is empty exactly when the line is all whitespace. |
| Text.SplitPieces | common/utils.py:47 | No piece of `s.split(sep)` contains the separator, and joining the pieces with the separator gives `s` back. |
| Text.SplitCount | common/utils.py:47 | `s.split(sep)` has exactly one piece more than `s` has separators. So the two-name unpacking succeeds exactly when there is one `=`. |
| Text.SplitAtOnlySeparator | common/utils.py:47 | A string with exactly one separator splits into the text before its first occurrence and the text after it. |
| Text.SplitJoin | common/utils.py:52 | Splitting a join of pieces that do not contain the separator gives the pieces back. |
| Text.ContainsIff | common/utils.py:70 | The substring test `sub in s` holds exactly when `sub` occurs at some position of `s`. |
| Text.Last | common/utils.py:48 | `s[-8:]` is the last 8 characters of `s`, or all of `s` when it is shorter. |
| Text.ZFill | common/utils.py:76 | `zfill(width)` leaves a string of at least `width` characters alone. Otherwise it puts zeros in front to make exactly `width` characters, and a leading `+` or `-` stays in front of the zeros. |
| Text.NatToString | stock/market.py:43 | `str(n)` is a non-empty digit string with no leading zero unless it is `"0"`, and it denotes `n`. |
| Text.ZerosValue | common/utils.py:76 | Left-padding a digit string with zeros keeps the number it denotes. |
| Const.PrefixesDisjoint | common/const.py:6-8 | No code starts with both a Shanghai and a Beijing prefix. So the order of the two checks in `code_with_prefix` does not matter. |
| Const.SessionBoundariesIncrease | common/const.py:10-16 | 09:30 < 11:30 < 13:00 < 15:00, all within one day. So the two sessions are disjoint and ordered. |
| Const.TablesWellFormed | common/const.py:4-8 | No bad-name keyword is empty, so the filter does not reject every name. Every exchange prefix is a non-empty digit string shorter than a six-digit code. |
| Records.QuoteLayout | stock/__init__.py:4-38 | A quote has 33 columns: `code`, then 32 wire fields. `name` is the first wire field, and `date` and `time` are the last two. |
| Records.LevelColumns | stock/__init__.py:16-35 | Wire fields 11–20 are the five buy levels and 21–30 the five sell levels, each as an (apply, price) pair. |
| Records.Quote.Name | stock/__init__.py:6 | The name accessor reads the value of the column called `name`. |
| Records.Quote.BuyLevel | stock/__init__.py:16-25 | Buy level `k` is the pair of values in the columns `buy_<k>_apply` and `buy_<k>_price`. |
| Records.Quote.SellLevel | stock/__init__.py:26-35 | Sell level `k` is the pair of values in the columns `sell_<k>_apply` and `sell_<k>_price`. |
| Records.Quote.Date | stock/__init__.py:36 | The date accessor reads the value of the column called `date`. |
| Records.Quote.Time | stock/__init__.py:37 | The time accessor reads the value of the column called `time`. |
| Records.StockLayout | stock/__init__.py:41-54 | A basic-info row has 12 columns, with code first and name second. These are the positions the universe loop reads. |
| Calendar.IsoWeekday | common/utils.py:93 | `isoweekday()` is in 1..7. |
| Calendar.NextDay | common/utils.py:93 | The next calendar day is a valid date later than the given one. It starts a month exactly when the given day ends one. |
| Calendar.NextDayOrdinal | common/utils.py:93 | Across month and year ends, including leap days, the next calendar day has the next `toordinal` value. |
| Calendar.NewYearOrdinal | common/utils.py:93 | The first of January directly follows the thirty-first of December in ordinal numbering. |
| Calendar.NextDayNextWeekday | common/utils.py:93 | The next calendar day, across month and year ends, has the next ISO weekday, with Sunday wrapping to Monday. |
| Calendar.TimeOfDay | common/utils.py:94 | The time of day is below one day's worth of microseconds. |
| Calendar.TimeOfDayOrderIsLexicographic | common/utils.py:96-98 | Ordering by microseconds since midnight is the field-by-field ordering of Python `time` objects. |
| Calendar.AprilWeekdays | tests/test_utils.py:36-38 | 2023-04-14 is a Friday (5) and 2023-04-15 a Saturday (6). |
| CommonUtils.ParseLine | common/utils.py:43-55 | An accepted line gives a quote with exactly 32 fields, whose ticker is at most 8 characters long and starts with `sz`, `sh` or `bj`. |
| CommonUtils.ParseFields | common/utils.py:52 | The record is built exactly when there are at least 32 pieces. It keeps the ticker and 32 fields. |
| CommonUtils.ParseLineCharacterization | common/utils.py:43-55 | A line yields a quote exactly when its stripped form is an `AcceptedLine`. `AcceptedLine` is stated without `split`: non-empty, one `=`, ticker marker, payload longer than 3, at least 31 commas inside. Such a line is read as the payload stage reads its two halves. |
| CommonUtils.PayloadCharacterization | common/utils.py:49-52 | The payload stage accepts exactly a marked ticker with a payload longer than 3 characters whose inner part has at least 31 commas. It then returns that ticker and 32 fields that are a prefix of the inner part's comma pieces. |
| CommonUtils.ParsePayloadIff | common/utils.py:49-52 | The same acceptance condition. The fields are exactly the first 32 comma pieces of `data[1:-1]`. |
| CommonUtils.ParseLineBlank | common/utils.py:44-45 | Empty and whitespace-only lines give `None`. |
| CommonUtils.ParseLineNotOneEquals | common/utils.py:47 | A stripped line whose `=` count is not exactly one gives `None` and does not raise. |
| CommonUtils.LineHalves | common/utils.py:47-48 | A line `<head>=<data>` with no blank at its ends is read as the payload stage reads the last 8 characters of `head` and all of `data`. |
| CommonUtils.ParseRenderedLine | common/utils.py:43-55 | Round trip: rendering a ticker and at least 32 clean fields as a feed line and parsing it gives back the ticker and the first 32 fields. With exactly 32 fields, the closing quote stays on the last one. |
| CommonUtils.RenderedPayloadPieces | common/utils.py:52 | `data[1:-1]` of a rendered payload splits into the fields, with the closing `"` glued to the last field. |
| CommonUtils.ParseSampleLine | tests/test_utils.py:14-16 | The test suite's Beijing line parses to ticker `bj836826` and the first 32 of its 39 fields. |
| CommonUtils.SampleQuoteColumns | tests/test_utils.py:14 | The sample quote's name is 盖世食品, its date 2023-04-13 and its time 15:30:11. |
| CommonUtils.ParseLineRejectsTestLines | tests/test_utils.py:18-22 | `"bad string"` and `""` give `None`. |
| CommonUtils.ParseLineRejectsBlank | common/utils.py:44-45 | A line of whitespace only gives `None`. |
| CommonUtils.ParseLineRejectsEmptyPayload | common/utils.py:51 | A ticker's empty reply `"";` gives `None`. |
| CommonUtils.ParseLines | common/utils.py:60-65 | The reply parser returns at most one quote per line, and each quote has 32 fields. |
| CommonUtils.ParseLinesAppend | common/utils.py:60-65 | Parsing distributes over concatenation of line sequences, so line order is kept. |
| CommonUtils.ParseLinesMembership | common/utils.py:60-65 | A quote is in the result exactly when some line parses to it. |
| CommonUtils.ParseResponse | common/utils.py:58-65 | A response body is cut at every `\n`, and yields at most one quote per resulting line. |
| CommonUtils.ParseResponseMembership | common/utils.py:58-65 | A quote is in the parsed response exactly when some `\n`-separated line of the body parses to it. |
| CommonUtils.ParseResponseOfLines | common/utils.py:58-65 | A body made of lines joined by `\n` parses to exactly those lines' quotes, in line order. |
| CommonUtils.AnyKeywordInIff | common/utils.py:68-72 | The keyword loop returns true exactly when some keyword occurs in the name. |
| CommonUtils.IsBadStockIff | common/utils.py:68-72 | A name is bad exactly when `退`, `ST` or `N` occurs in it as a substring. |
| CommonUtils.IsBadStockExamples | tests/test_utils.py:24-28 | 皇叔集团退, ST皇叔 and N皇叔 are bad, and 皇叔股份 is not. |
| CommonUtils.CodeWithPrefix | common/utils.py:75-83 | The ticker is a two-letter marker followed by `zfill(6)` of the code. The marker is `sh` exactly for Shanghai prefixes, `bj` exactly for Beijing prefixes, and `sz` otherwise. |
| CommonUtils.CodeWithPrefixOfNumber | stock/market.py:43 | The ticker of a numeric code below one million is 8 characters long, and its last six are digits that denote the code. |
| CommonUtils.CodeWithPrefixExamples | tests/test_utils.py:30-33 | 600345 → sh600345, 800345 → bj800345, 345 → sz000345. |
| CommonUtils.IsTradeTimeIff | common/utils.py:86-100 | Trading time holds exactly when all three hold: a calendar workday, ISO weekday ≤ 5, and strictly inside one of the two listed sessions. |
| CommonUtils.SessionEndpointsExcluded | common/utils.py:96-98 | None of the four session boundaries is a trading moment. |
| CommonUtils.WeekendNeverTrades | common/utils.py:93 | A Saturday or Sunday never trades, even when the calendar lists it as a workday. |
| CommonUtils.IsTradeTimeExamples | tests/test_utils.py:35-41 | Under any calendar, Saturday 09:50:55 and Friday 09:00:55 are not trading moments. Friday 2023-04-14 09:50:55 is one exactly when the calendar lists that Friday as a workday. |
| RootUtils.ParseSinaResponseText | utils.py:29-41 | The older parser agrees with `CommonUtils.ParseLine` on every line. It gives `None` on blank input, and its quotes have 32 fields and a marked ticker. |
| RootUtils.IsBadStock | utils.py:44-48 | The keyword loop returns true exactly when some keyword occurs in the name. This agrees with `CommonUtils.IsBadStock`. |
| RootUtils.CodeWithPrefix | utils.py:51-59 | The older prefixing agrees with `CommonUtils.CodeWithPrefix`. The ticker is a marker in `sh`/`bj`/`sz` followed by `zfill(6)` of the code. |
| RootUtils.IsTradeTime | utils.py:62-77 | With the clock reading as a parameter, the check agrees with `CommonUtils.IsTradeTime`. It holds exactly for a workday, weekday < 6, and strictly inside a session. |
| Batching.BatchesPartition | stock/market.py:87-90 | The batches concatenate back to the codes. Each batch is non-empty and at most `batch_size` long, and all but the last are exactly `batch_size` long. The count `n` satisfies (n−1)·size < len ≤ n·size. |
| Batching.BatchCount | stock/market.py:88-89 | There are ⌈len / batch_size⌉ batches, as many as `range(0, len, batch_size)` has elements. |
| Batching.FlattenAppend | stock/market.py:89-90 | Concatenation distributes over appending batch lists. |
| Market.BatchSlices | stock/stock_manager.py:59-62 | The `range(0, n, size)` slicing loop produces exactly the partition of the codes. Its concatenation is the codes, and it has ⌈n / size⌉ slices. |
| Market.KeepMapMembership | stock/market.py:40-45 | A ticker is listed exactly when some kept row maps to it. |
| Market.GoodCodesMarked | stock/market.py:40-45 | Every ticker of the universe comes from a kept row, is at least 8 characters long, and starts with `sh`, `bj` or `sz`. |
| Market.BuildUniverse | stock/market.py:40-48 | The constructor's loop lists the tickers of the rows with good names, in row order. It stores each under its ticker, where a later row with the same ticker replaces an earlier one. The count is the list's length. |
| Market.IndexRows | stock/market.py:40-45 | The generic loop lists `key(row)` for the kept rows, in order. Its table has exactly the listed keys, each bound to the last kept row with that key. |
| Market.AcceptResponse | stock/market.py:62-66 | A reply is returned unchanged exactly when the status is 200 and `FAILED` occurs nowhere in the body. A status other than 200 is reported as such before the body is looked at. |
| Market.Record | stock/market.py:125-129 | Recording appends the quote to its ticker's list and leaves every other list unchanged. A new ticker goes at the end of the key order. Well-formedness and validity (non-empty lists of their own ticker's quotes) are kept. |
| Market.RecordConserves | stock/market.py:125-129 | Recording adds exactly the recorded quote to the buffer's multiset of quotes, and one to its size. |
| Market.RecordAllGet | stock/market.py:131-137 | After recording a sequence of quotes, each ticker's list is its old list followed by that ticker's quotes from the sequence, in order. |
| Market.RecordAllValid | stock/market.py:125-137 | Recording any sequence of quotes keeps the buffer well formed and valid. |
| Market.RecordAllConserves | stock/market.py:125-137 | Recording a sequence adds exactly its quotes to the buffer's multiset. |
| Market.RecordAllAppend | stock/market.py:133-137 | Recording `a + c` is recording `a`, then `c`. |
| Market.ParseAndUpdateBuffer | stock/market.py:131-137 | Each ticker's list gains that ticker's quotes parsed from the reply's lines, in line order, and the buffer stays valid. |
| Market.UnparseableLineIgnored | stock/market.py:134-137 | A line that does not parse leaves the buffer as if the line were absent. |
| Market.FetchAllStockRealTimeQuotes | stock/market.py:87-99 | One fetch of every batch records, batch after batch, the quotes of each accepted reply. It drops refused replies and keeps the buffer valid. |
| Market.FetchedSnoc | stock/market.py:89-90 | The quotes of one more batch come after those of the earlier batches. |
| StockManager.GetRealTimeQuotes | stock/stock_manager.py:51-55 | Same acceptance rule as the market manager: the reply is returned unchanged exactly when the status is 200 and the body has no `FAILED`. `Wrong text` is raised exactly for a 200 reply that contains `FAILED`. |
| StockManager.UpdateRecord | stock/stock_manager.py:83-87 | The record table gains the quote's ticker. Its list is extended by the quote, or created as the singleton. Other tickers are unchanged, and validity is kept. |
| StockManager.BufferRecordAgrees | stock/market.py:125-129 | The market buffer's lists change exactly as the stock manager's record table does. |
| Producer.StepIdle | producer/real_time_quotes_producer.py:31-33 | Outside trading time, counter, buffer and queue are unchanged. |
| Producer.StepTrading | producer/real_time_quotes_producer.py:23-29 | In trading time the counter goes up by one, and resets to 0 exactly when it reaches 10. Only then does the queue grow, by the buffered lists in key insertion order, and the buffer is left empty. |
| Producer.InitialInvariant | producer/real_time_quotes_producer.py:21 | The loop starts with counter 0, an empty buffer and an empty queue, which satisfies the invariant. |
| Producer.StepKeepsInvariant | producer/real_time_quotes_producer.py:23-29 | Every turn keeps three things at the loop head: counter in [0, 10), a valid buffer, and a queue of non-empty single-ticker lists. |
| Producer.StepConserves | producer/real_time_quotes_producer.py:24-28 | No quote is lost or invented. After a turn, queued plus buffered quotes equal what was there before plus every quote of the turn's accepted replies. |
| Producer.QueueOnlyGrows | producer/real_time_quotes_producer.py:27-28 | A turn never takes anything back off the queue. |
| Producer.FlushEnqueuesEachKeyOnce | producer/real_time_quotes_producer.py:27-28 | A flush enqueues each buffered ticker's list once, at its key's insertion position. |
| Producer.GroupsWellFormed | stock/market.py:125-129 | The lists of a valid buffer are non-empty and each holds one ticker. |
| Producer.Drain | producer/real_time_quotes_producer.py:27-28 | Popping every key of a snapshot of the keys leaves the buffer empty and appends its lists to the queue in key insertion order. |
| Producer.AsyncProduceTurn | producer/real_time_quotes_producer.py:20-33 | One turn with the clock reading as a parameter is the pure step, gated by `is_trade_time`, and keeps the buffer valid. |

## Left out

- Network I/O is not modelled: the HTTP session, its headers, the timeout and the `retry` decorator (stock/market.py:46-47, 55-68). A reply is the `Reply(status, body)` value a caller-supplied `fetch` function returns after any retries. Only the acceptance rule is modelled.
- The worker threads of `fetch_all_stock_real_time_quotes` (`multitasking`, the SIGINT handler) are run one after another in batch order. Real threads may record batches in any interleaving. The per-ticker order within one reply is kept either way.
- asyncio is not modelled: the queue is a sequence, consumers are not modelled, and `asyncio.sleep`/`time.sleep` and the producer's log print are dropped. The diagnostic `print` in `parse_line`'s exception handler (common/utils.py:53-54) is dropped too: the model returns `None` on that path without output. `datetime.now()` becomes a parameter of `AsyncProduceTurn` and `RootUtils.IsTradeTime`.
- The holiday calendar `chinese_calendar.is_workday` is the parameter `isWorkday: Date -> bool`.
- The basic-info bootstrap is not modelled (efinance, `read_csv`, `dropna`, the cache file; stock/market.py:31-36). The rows are an input sequence, with the numeric code as a `nat` and the financial columns kept as text.
- Persistence is not modelled: `df_to_csv`, `quotes_to_csv` and pandas `drop_duplicates`, as well as progress bars, the `cost` decorator and the base classes.
- Three broken variants are not modelled:
  - stock/market.py:70-79 pops from the dict while iterating its live `keys()` view, which raises `RuntimeError`, and it never resets the counter.
  - stock/market.py:101-113 calls a `_parse_and_update` that the market manager does not define.
  - stock/stock_manager.py:89-95 passes the list that common/utils.py:58-65 returns into code that reads `.code`.
  The working producer in producer/real_time_quotes_producer.py is modelled instead.
- The parser tests in tests/test_utils.py:13-22 call `parse_sina_response_text` and expect an optional quote. That matches the single-line parser of utils.py:29-41, not the list-returning version in common/utils.py:58-65. The test facts are stated about `CommonUtils.ParseLine`, which `RootUtils.ParseSinaResponseText` is proved equal to.
- `data[1:-1]` drops the opening quote and the `;` but keeps the closing `"`. With more than 32 payload fields, as the feed sends, the stray quote lands on a dropped piece. With exactly 32 it stays on `time`. `ParseRenderedLine` states both cases. It is reported as behaviour, not as a defect.
- CommonUtils.SampleLine is built with `RenderLine` from the test line's fields, not typed out as one literal.
- Market.BatchSlices: requires `batchSize > 0`. Python raises `ValueError` for a zero step in `range`, and both callers use the default 200.
- Market.FetchAllStockRealTimeQuotes: requires `batchSize > 0`, for the same reason.
- Producer.Drain: requires a well-formed buffer, with keys listed once and exactly the dict's keys. This is the representation invariant of a Python dict, so no reachable buffer violates it.
- Producer.AsyncProduceTurn: requires a well-formed buffer and a valid clock reading, for the same reasons.
- Text.Split: carries only "never empty" in its own contract. `SplitPieces` and `SplitCount` state what the pieces are.
- Floating-point prices are not interpreted. Every quote field is kept as the text the feed sent.
- Unicode normalisation and case folding are not modelled. Strings are sequences of code points.
