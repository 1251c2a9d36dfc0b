# Exchange template: candle persistence

A Dafny model of the market-data core of `crypto_exchange_handler`'s
exchange template (`ExchangeAPI`). Every exchange adapter inherits two
operations from it:

- **dump** (`dump_market_data_to_file`) chooses a retrieval: the `amount`
  most recent candles, or the candles from `start` up to an optional `end`.
  `amount` takes precedence. With neither, it returns early and writes
  nothing. It then opens the target file for writing, takes the CSV header
  from the key order of the first candle dictionary, and writes one value row
  per candle.
- **load** (`load_market_data_file`) returns the sentinel -1 unless the path
  contains ".csv" somewhere. Otherwise it skips the first row and turns every
  other row into a record whose `ts, open, high, low, close` are columns 0 to 4
  parsed as numbers.

The constructor is also modelled, because it keeps the exchange name in lower case.

Layout:

- `wrappers.dfy`: `Option` and a failure-compatible `Result`.
- `text.dfy`: `Find` (the semantics of `str.find`) and `Lower` (`str.lower`).
- `candles.dfy`: candle dictionaries as ordered key/value entries (`Record`), table rows, and the fixed `Candle` record that load builds.
- `storage.dfy`: `FileStore`, the file system as a map from path to the rows the file holds.
- `market_data.dfy`: the dump and the load as pure functions, plus the lemmas about them. The functions and the source lines each one models:
  - `Retrieve`: crypto_exchange_handler/exchange_template.py:126-133 (the choice of retrieval).
  - `Store`: crypto_exchange_handler/exchange_template.py:135-144 (open the file, then write header and rows, or fault).
  - `Dump`: crypto_exchange_handler/exchange_template.py:105-144 (the whole dump).
  - `Table`: crypto_exchange_handler/exchange_template.py:137-144 (header row, then value rows).
  - `ValueRows`: crypto_exchange_handler/exchange_template.py:140-144 (one value row per candle).
  - `Column` and `DecodeRow`: crypto_exchange_handler/exchange_template.py:160-166 (one data row to a candle).
  - `DecodeRows`: crypto_exchange_handler/exchange_template.py:158-168 (all data rows, in order).
  - `DecodeTable`: crypto_exchange_handler/exchange_template.py:152-171 (skip the first row, decode the rest).
  - `Load`: crypto_exchange_handler/exchange_template.py:146-171 (the guard, the open, then the table).
- `exchange.dfy`: class `ExchangeAPI`. Its constructor, dump method and load method work step by step, as the source does. The dump and load methods are each proved equal to their function in `market_data.dfy`.

Adapter-supplied parts are parameters:

- `CandleSource` holds the adapter's `get_last_candles` and `get_candles` as function values. A retrieval can raise, modelled as `Err(AdapterError)`. It can return `None`, modelled as `Ok(None)`. Or it can return a sequence of candles, modelled as `Ok(Some(cs))`. `Unimplemented()` models the template's own stubs.
- `show` is the text the CSV writer gives a value.
- `parse` is `float()`: `None` means a `ValueError`.

Dump outcomes:

- `MissingSelection` is the bare `return` at line 133.
- `EmptyCandles` is the `IndexError` raised by `candles[0]` after line 135 has already truncated the file.
- `NoCandles` is the `TypeError` raised by `candles[0]` when the retrieval returned `None`. This also happens after the file was truncated.

Load errors:

- `NotCsv` is the `-1` sentinel.
- `FileNotFound` is the error `open` raises when the file does not exist.
- `MissingColumn(k)` is the `IndexError` of a short row.
- `NotANumber(cell)` is the `ValueError` of a cell that does not parse.

Columns are parsed from left to right, so the first failing column decides the error.

The model follows the code as written:

- The load guard is a substring test, so "x.csv.txt" is accepted.
- The guard answers with a sentinel, not a structured error.
- An empty retrieval, or one that returns `None`, is a fault that leaves an empty (truncated) file, not a header-only file.

## Model

| member | source | states |
|---|---|---|
| `Exchange.ExchangeAPI.constructor` | crypto_exchange_handler/exchange_template.py:25-45 | the stored name is the lower-cased argument; keys and passphrase are stored as given, and the passphrase is absent by default |
| `Text.Lower` | crypto_exchange_handler/exchange_template.py:42 | same length; no upper-case letter remains; other characters unchanged; each upper-case letter becomes its lower-case form |
| `Text.Find` | crypto_exchange_handler/exchange_template.py:148 | -1 exactly when the pattern occurs nowhere; otherwise an index where it occurs with no earlier occurrence |
| `Text.FindsInfix` | crypto_exchange_handler/exchange_template.py:148 | an occurrence anywhere in the string is found (a substring search, not a suffix test) |
| `MarketData.SelectionPrecedence` | crypto_exchange_handler/exchange_template.py:126-133 | with `amount`, the recent-window retrieval is used and `start`/`end` do not matter; without it, `start` selects the range retrieval with `end`; with neither, the dump ends with no file changed |
| `MarketData.TemplateCannotDump` | crypto_exchange_handler/exchange_template.py:95-99 | with the template's unimplemented retrievals, every selected dump fails before any file is touched |
| `MarketData.DumpEffect` | crypto_exchange_handler/exchange_template.py:126-144 | the dump reports a missing selection exactly when both `amount` and `start` are absent; with no selection or a retrieval that raises (`Err(e)`), the outcome is `MissingSelection` or `RetrievalFailed(e)` and every file is unchanged; a retrieval that returns `None` or no candles gives `NoCandles` or `EmptyCandles` with the target file emptied; retrieved candles `cs` give `Written`, only the target file changes, and it becomes `Table(cs)`: |cs|+1 rows, row 0 the keys of `cs[0]`, row i+1 the values of `cs[i]` |
| `MarketData.TableShape` | crypto_exchange_handler/exchange_template.py:137-144 | the table has one row more than there are candles; row 0 is the first candle's key list; row i+1 is candle i's values in its own order |
| `MarketData.ValueRowsShape` | crypto_exchange_handler/exchange_template.py:140-144 | one value row per candle, in input order |
| `Exchange.ExchangeAPI.DumpMarketDataToFile` | crypto_exchange_handler/exchange_template.py:105-144 | the outcome and the new file system are exactly those of `Dump` on the old file system (selection, truncation, header, value rows) |
| `Storage.FileStore.OpenForWriting` | crypto_exchange_handler/exchange_template.py:135 | opening for writing leaves the path with no rows; no other file changes |
| `Storage.FileStore.WriteRow` | crypto_exchange_handler/exchange_template.py:138 | a written row is appended after the file's existing rows |
| `Exchange.ExchangeAPI.LoadMarketDataFile` | crypto_exchange_handler/exchange_template.py:146-171 | the result is exactly `Load` of the path and the current files |
| `MarketData.DecodeRowSpec` | crypto_exchange_handler/exchange_template.py:160-166 | a row decodes if and only if it has at least five cells and the first five parse; the result is the candle of those five cells; later cells are ignored; a failure is a missing column or a bad number |
| `MarketData.DecodeRowsSpec` | crypto_exchange_handler/exchange_template.py:158-170 | the data rows decode if and only if every row is well formed, to one candle per row in order; otherwise a row error, and no partial sequence |
| `MarketData.DecodeRowsPrefixError` | crypto_exchange_handler/exchange_template.py:158-167 | once a prefix of the rows fails, the whole load fails with that same error |
| `MarketData.DecodeTableSpec` | crypto_exchange_handler/exchange_template.py:152-171 | an empty file loads as no candles; otherwise one candle per row after the first, candle i-1 from row i, and success exactly when all those rows are well formed |
| `MarketData.HeaderIgnored` | crypto_exchange_handler/exchange_template.py:156-170 | the first row's content never affects the result |
| `MarketData.LoadGuard` | crypto_exchange_handler/exchange_template.py:148-150 | the load reports the sentinel if and only if the path contains no ".csv", and then its result does not depend on any file |
| `MarketData.CsvAnywhereAccepted` | crypto_exchange_handler/exchange_template.py:148 | a path with ".csv" anywhere (such as "x.csv.txt") passes the guard |
| `MarketData.TxtRejected` | crypto_exchange_handler/exchange_template.py:148-150 | "data.txt" is refused with the sentinel |
| `MarketData.ValueRowsRoundTrip` | crypto_exchange_handler/exchange_template.py:140-167 | when parsing undoes printing and every record has at least five entries, decoding the value rows gives, per candle and in order, its first five values |
| `MarketData.RoundTrip` | crypto_exchange_handler/exchange_template.py:137-167 | candles dumped with the fixed `ts, open, high, low, close` keys have that schema as header and load back unchanged |
| `MarketData.NothingRetrievedLoadsEmpty` | crypto_exchange_handler/exchange_template.py:126-137 | a dump whose retrieval returned `None` ends in the fault after truncation, and the target file then loads as empty |
| `MarketData.DumpThenLoad` | crypto_exchange_handler/exchange_template.py:126-171 | after a dump to a ".csv" path, loading that path returns the first five values of each retrieved candle in order; an empty retrieval loads back as empty |

## Left out

- CSV text is not modelled: a file is the list of rows it holds. The writer quotes with `|` and the reader unquotes with `"`, so a cell containing a comma would not come back intact. The model does not capture this. The same goes for encoding, newline handling and blank-line handling.
- `float()` and `str()` are not interpreted. They are the `parse` and `show` parameters, and the round-trip lemmas assume that `parse` undoes `show`.
- The `print` diagnostics before the early return in dump and the sentinel return in load are not modelled. Only the outcome is.
- The adapter operations other than the two retrievals (balances, markets, prices, order book, withdrawal, order creation) are not modelled. In the template they only raise `NotImplementedError`.
- Retrieval arguments (`symbol`, `interval`, `start`, `end`) are passed through uninterpreted. What an adapter returns is up to the adapter.
- Text.Lower: folds only the ASCII letters A-Z. Python's `str.lower` also folds non-ASCII letters.
- A failed open for writing is not modelled: in the dump, `open(file, "w")` cannot fail (a missing directory or a denied permission would raise after the retrieval).
- Concurrent writers to one path are not modelled. Each dump and load is a single sequential step.
