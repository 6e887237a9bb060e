# BTC option selection — a Dafny model

This project models the option-selection batch job of `Week-1/main.py`: it
takes the BTCUSDT spot price and the exchange's product catalog, and for each
of the next seven days starting 2025-05-25 it

1. derives the day's table key (`YYYYMMDD`) and the expiry code (`ddmmyy` of
   the date three days later) by proleptic Gregorian date arithmetic;
2. computes the strike window `[floor((spot - 15000) / 100) * 100,
   floor((spot + 15000) / 100) * 100]`, stepped by 100;
3. keeps the BTC call and put options whose symbol ends with the expiry code
   and whose strike is present and in the stepped window, turns each into a row
   (`call` for `call_options`, `put` otherwise, volume defaulting to 0.0), hands
   the day's rows to the per-day table, and adds their symbols to one run-wide
   set.

It then models the candle step: one history request per symbol of that set
over the 14 days before the clock reading, skipping every response that does
not report success with a non-empty result, and otherwise one output row per
candle, tagged with its symbol, in result order.

Modules, one per part of the job:

- `Wrappers` — `Option`.
- `Calendar` — dates, Python's `toordinal`, `date + timedelta(days=n)`, and the
  `%d%m%y` and `%Y%m%d` formats, with readers that decode them again.
- `Strikes` — the window bounds, `range(start, stop, 100)` and the window set.
- `Selection` — products, rows, the day codes, the filter specified as the
  function `Collected`, and the two loops as methods `SelectDay` and
  `SelectOptions` proved equal to it.
- `Candles` — requests, responses, the skip rule and the candle loop.
- `Pipeline` — `list(set)` and the whole run.

The spot price is an exact `real`, not a float. The `datetime` arithmetic is
CPython's: a date's ordinal counts days from 0001-01-01, and adding days moves
the ordinal. The model proves that `AddDays`, stepping one calendar day at a
time, gives exactly the date with the shifted ordinal.

Within each day the program keeps catalog order, and so does the model. A
product listed twice in the catalog gives two rows.

## Model

| member | source | states |
|---|---|---|
| `Calendar.NextDay` | Week-1/main.py:87-88 | the following day is a valid date whose ordinal is one more; there is none exactly when the date is 9999-12-31 |
| `Calendar.AddDays` | Week-1/main.py:87-88 | adding n days gives a valid date whose ordinal is n more, and fails (Python's OverflowError) exactly when that passes 9999-12-31 |
| `Calendar.DayNumberInjective` | Week-1/main.py:87-88 | distinct valid dates have distinct ordinals, so a date is determined by its ordinal |
| `Calendar.DayNumberRange` | Week-1/main.py:87-88 | every valid date's ordinal lies in 1..3652059, and only 9999-12-31 has the largest |
| `Calendar.AddDaysIs` | Week-1/main.py:87-88 | adding n days gives the one valid date whose ordinal is n more |
| `Calendar.AddDaysCompose` | Week-1/main.py:87-88 | adding a days and then b days is adding a + b days |
| `Calendar.ExpiryCode` | Week-1/main.py:89 | `%d%m%y` is six decimal digits |
| `Calendar.DateKey` | Week-1/main.py:90 | `%Y%m%d` is eight decimal digits |
| `Calendar.ExpiryCodeRoundTrip` | Week-1/main.py:89 | the expiry code reads back as the day, the month and the year modulo 100 |
| `Calendar.DateKeyRoundTrip` | Week-1/main.py:90 | the date key reads back as the whole date |
| `Calendar.DateKeyInjective` | Week-1/main.py:90 | distinct dates have distinct keys |
| `Strikes.Lower` | Week-1/main.py:92 | the lower bound is a multiple of 100, at most spot - 15000 and less than 100 below it |
| `Strikes.Upper` | Week-1/main.py:93 | the upper bound is a multiple of 100, at most spot + 15000 and less than 100 below it |
| `Strikes.WindowWidth` | Week-1/main.py:13-14 | because 15000 is a multiple of 100, lower <= upper and upper - lower == 30000 for every spot price |
| `Strikes.StepRangeMembers` | Week-1/main.py:94 | `range(start, stop, 100)` holds exactly the numbers from start below stop that differ from start by a multiple of 100 |
| `Strikes.InStrikeRange` | Week-1/main.py:94 | a strike is in the window set iff it is a multiple of 100 between lower and upper inclusive |
| `Strikes.StrikeRangeStepped` | Week-1/main.py:94 | every member of the window set is a multiple of 100 |
| `Strikes.Spot70000Window` | Week-1/main.py:92-94 | at spot 70000 the window is 55000..85000: 55000 and 85000 qualify, 54900, 85050 and 85100 do not |
| `Selection.CurrentDate` | Week-1/main.py:87 | day i is the valid date i days after 2025-05-25 |
| `Selection.ExpiryDate` | Week-1/main.py:88 | day i's expiry is the valid date three days after day i, i.e. i + 3 days after 2025-05-25 |
| `Selection.ExpiryStr` | Week-1/main.py:89 | `expiry_str` is six decimal digits |
| `Selection.DateStr` | Week-1/main.py:90 | `date_str` is eight decimal digits |
| `Selection.DayIs` | Week-1/main.py:86-90 | once day i's date and its expiry date are pinned by their ordinals, its codes are those dates' codes |
| `Selection.FirstDayCodes` | Week-1/main.py:16 | for i = 0 the expiry code is "280525" and the date key "20250525" |
| `Selection.LastDayCodes` | Week-1/main.py:86-90 | for i = 6 the month has rolled over: expiry code "030625", date key "20250531" |
| `Selection.ExpiryStrDenotes` | Week-1/main.py:87-89 | day i's expiry code denotes the day, month and two-digit year of the date three days after day i |
| `Selection.TableNamesSafeAndDistinct` | Week-1/main.py:34-47 | each day's table name `options_<date_str>` holds only lower-case letters, digits and underscores, and different days use different tables |
| `Selection.CollectedConcat` | Week-1/main.py:96-112 | filtering a concatenated catalog concatenates the filtered parts, so rows keep catalog order |
| `Selection.CollectedAt` | Week-1/main.py:98-111 | the product at each position adds exactly one row when it passes every test and none otherwise, between the rows of the products before and after it |
| `Selection.CollectedSnoc` | Week-1/main.py:98-111 | one more product of the loop adds its row to the end, or nothing |
| `Selection.CollectedSound` | Week-1/main.py:98-111 | every row comes from a BTC put or call of the catalog; its symbol ends with the expiry code; its strike is present and in the window; its expiry is the code; its type is "call" iff the contract is `call_options` and "put" iff `put_options` |
| `Selection.CollectedComplete` | Week-1/main.py:98-111 | every product passing every test yields its row; a product with no strike never passes and is skipped rather than failing |
| `Selection.SymbolsOfSnoc` | Week-1/main.py:111-112 | appending a row adds exactly its symbol to the symbols of the rows |
| `Selection.SymbolsOfBatchesMembers` | Week-1/main.py:84 | the run-wide set holds a symbol exactly when some row of some day carries it |
| `Selection.DayCodeAt` | Week-1/main.py:86-90 | there are seven days, and day i's codes are its date key and its expiry code |
| `Selection.BatchesForAt` | Week-1/main.py:86-114 | the loop hands over one batch per day, and day i's batch holds its date key and exactly the rows filtered with its expiry code |
| `Selection.BatchesForSnoc` | Week-1/main.py:86-114 | one more pass of the day loop appends that day's batch after the earlier ones |
| `Selection.DayBatchesAt` | Week-1/main.py:86-114 | at a given spot price there are seven batches, and batch i holds day i's key and the rows selected with day i's expiry code and the window |
| `Selection.BatchSymbolQualifies` | Week-1/main.py:98-112 | a symbol of some day's rows is the symbol of a product that passes every test with that day's expiry code |
| `Selection.QualifyingSymbolInBatch` | Week-1/main.py:98-112 | a product passing every test with a day's expiry code puts its symbol into that day's rows |
| `Selection.BatchSymbolsExactly` | Week-1/main.py:84-112 | the union of the batches' symbols is exactly the set of symbols of products that pass every test on some day |
| `Selection.QualifiesWithCodeIffOnDay` | Week-1/main.py:86-89 | qualifying with one of the seven day codes is qualifying with some day's `expiry_str` |
| `Selection.RunSymbolsExactly` | Week-1/main.py:84-112 | after the day loop the set holds exactly the symbols of the products that qualify on some day, and nothing else |
| `Selection.SelectedStrikesInWindow` | Week-1/main.py:92-107 | every selected strike is a multiple of 100 between the bounds, and the row's expiry is that day's code |
| `Selection.SelectDay` | Week-1/main.py:87-112 | one pass of the day loop gives the day's key and exactly the `Collected` rows, and the set grows by exactly their symbols |
| `Selection.SelectOptions` | Week-1/main.py:84-114 | the day loop hands every day its key and rows, and ends with the set equal to the union of the symbols of all days |
| `Selection.FirstDayExample` | Week-1/main.py:98-111 | at spot 70000 on day 0 the call "C-BTC-280525" at strike 85000 gives the row ("C-BTC-280525", 85000, "280525", "call", volume); at 85050, or without a strike, nothing is selected |
| `Candles.LookbackStart` | Week-1/main.py:54-55 | the window starts exactly 14 whole days before its end |
| `Candles.RowsOfCandlesAt` | Week-1/main.py:71-80 | one row per candle, position by position, tagged with the symbol, with the rendered time and the candle's values |
| `Candles.SkippedResponses` | Week-1/main.py:69-80 | every response that is not successful, or has an absent or empty result, writes no row and raises nothing; an accepted one writes its candles' rows, one per candle; a successful response with an empty result is skipped |
| `Candles.CandleRowsConcat` | Week-1/main.py:60-80 | the rows for a concatenated symbol list are the rows for each part, in order |
| `Candles.CandleRowsTagged` | Week-1/main.py:60-80 | every row carries a requested symbol whose response was accepted, and renders one of that response's candles |
| `Candles.CandleRowsSnoc` | Week-1/main.py:60-80 | one more symbol appends the rows for its response after the earlier rows |
| `Candles.WriteCandles` | Week-1/main.py:71-80 | the inner loop appends exactly the rows of the response's candles, in result order |
| `Candles.FetchAndStoreCandles` | Week-1/main.py:53-80 | one request per symbol in order with resolution "1d" over [end - 14 * 86400, end]; the rows written are exactly `CandleRows` |
| `Pipeline.ListOf` | Week-1/main.py:116 | `list(set)` holds every element of the set exactly once |
| `Pipeline.Run` | Week-1/main.py:82-116 | the run's day batches and symbol set are the specified ones; the symbol list holds each selected symbol exactly once, with no repeats, and one request is made per listed symbol; every candle row carries a selected symbol |
| `Pipeline.CandleRowsAreSelectedOptions` | Week-1/main.py:112-116 | every candle row belongs to an option that qualified on some day |

## Left out

- `get_btc_price` (Week-1/main.py:18-26) is a network call. The spot price is a parameter of `Pipeline.Run`. Its HTTP failure and its "BTCUSDT ticker not found" error are not modelled.
- `fetch_option_products` (Week-1/main.py:28-32) is a network call. The catalog is a parameter.
- The history `requests.get` (Week-1/main.py:67-68) becomes the parameter `fetch: Request -> Response`. It is a function of the request. Each symbol is requested once, so this loses nothing. HTTP errors and undecodable JSON are not modelled.
- `store_options_in_db` (Week-1/main.py:34-51) is SQLite. The model records what each day hands over, its `DayBatch` of date key and rows, and the table name it would use. The DDL, the inserts and the duplicate rows of repeated runs are not modelled.
- The CSV file and its header row (Week-1/main.py:57-59) are file output. The model returns the data rows in write order. The header is not modelled.
- `tqdm` progress bars and the `print` call (Week-1/main.py:60, 86, 115) are display only.
- `time.time()` (Week-1/main.py:54) becomes the parameter `endTime`. `datetime.fromtimestamp(...).isoformat()` (line 74) becomes the parameter `isoformat`. The timestamp text is opaque.
- Floating point. The spot price is an exact `real`, so float rounding in `//` is not modelled. `float(volume)` is taken as an already numeric `Option<real>`. Candle values are passed through as `real`.
- The strike is taken as an already integral value (`Product.strike: Option<int>`). A numeric JSON strike arrives as a float, and `int(strike_price)` (Week-1/main.py:107, 111) truncates it toward zero, so 85000.7 would pass the window test and be stored as 85000. That truncation is not modelled. The ValueError that `int` raises on a non-integral string is not modelled either.
- Other conversion and lookup errors are not modelled. These are `float` on a bad volume, and a `KeyError` for a missing `symbol`, `contract_type` or `underlying_asset`. The model assumes every field has its expected type.
- Candles.Accepted: `success` is modelled as an optional boolean. Other truthy JSON values are not modelled.
- Calendar.AddDays: only adds a non-negative number of days, which is all the job does.
- Calendar.DateKey: `%Y` is four zero-padded digits. This matches Python for every year the job can produce.
