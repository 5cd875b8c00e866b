# Candle store of the forex-data webhook service

A Dafny model of the in-memory candle store of a small market-data service
(`main.py`). The store maps each trading symbol to a double-ended queue of at
most 100 OHLCV candles, created the first time the symbol is indexed. A webhook
request carries rows of the form `SYMBOL,TIME,OPEN,HIGH,LOW,CLOSE,VOLUME`. The
handler walks them in order and appends one candle per row to its symbol's
queue. At the first row that does not have seven fields it stops with a 400
result. At the first numeric field that does not convert it stops with a 500
result. Rows applied before the stop stay applied. A read returns a copy of a
symbol's queue in storage (append) order, or an empty list for a symbol never
seen, without adding that symbol.

Files:

- `candles.dfy` (module `Candles`): the `Candle` value, `Option`, and `Num`, the
  number a conversion yields. `Num` is carried through unchanged and never
  computed with.
- `window.dfy` (module `Window`): the bounded queue as sequence functions.
  `Pushed` appends one element and evicts the oldest when the queue is full.
  `PushAll` appends several in order, and `Last` is the reference definition
  both are proved against.
- `store.dfy` (module `Store`): the ingestion semantics as functions over
  `map<Symbol, seq<Candle>>`, the lemmas about them, and the class
  `CandleStore` whose `buffers` field the methods update in place.
  - `Ingested` describes the outcome and the resulting store declaratively:
    the rows before the first failing one are applied, and the failing row's
    kind decides the result.
  - `RunRows` is the row-by-row recursion the handler's loop runs; it is
    proved equal to `Ingested`.
  - `CandleStore.ReceiveWebhook` is the loop itself, proved to produce
    `Ingested`'s outcome and store.

  `RunRows` and `ReceiveWebhook` both follow the handler's control flow:
  `RunRows` is a function on values, so lemmas (which cannot call a method)
  can compare it with `Ingested`. `ReceiveWebhook` is the same loop over
  the store's mutable state.

Numeric conversion (`float(...)`) is a parameter `parse: string -> Option<Num>`
of the ingestion functions and methods. `None` stands for the `ValueError`
that `float` raises. A request body reaches the model already split into rows
(`seq<seq<string>>`), so a body that is empty after trimming is the empty
sequence of rows.

The model follows `main.py` in three behaviours worth noting:

- The read returns storage order; the handler does not sort.
- A failed request keeps the candles of its earlier rows.
- A row whose numbers fail to convert can leave its symbol with a new, empty
  queue. `candles_store[symbol]` runs before the `float` calls, and the
  default factory creates the entry at that point.

## Model

| member | source | states |
|---|---|---|
| `Window.Pushed` | main.py:11 | one append to a queue of at most 100 candles keeps exactly the last 100 of the old contents followed by the new candle |
| `Window.PushedEvictsOldest` | main.py:11 | after one append the new candle is the last and the queue holds at most 100; on a full queue the result still has 100 elements and is the old contents without its oldest element, then the new one |
| `Window.PushAll` | main.py:11 | appending candles one at a time never takes a queue past 100 (its contents are given by `Window.PushAllKeepsLast`) |
| `Window.PushAllKeepsLast` | main.py:11 | appending a sequence of candles one at a time keeps exactly the last 100 of the old contents followed by the appended candles, in order |
| `Window.PushAllFromEmpty` | main.py:11 | appending N candles one at a time to an empty queue leaves min(N, 100) of them, namely the last ones, in append order |
| `Window.LastAppend` | main.py:11 | bounding first and then appending keeps the same last 100 as appending to the unbounded contents, which is why evicting early loses nothing |
| `Store.Lookup` | main.py:39 | a read of a symbol never seen is empty, and in a store within its bound every read holds at most 100 candles |
| `Store.Touched` | main.py:25 | indexing the store with a default factory adds the symbol to the key set and changes no symbol's contents |
| `Store.ParseCandle` | main.py:24-31 | converting a seven-field row succeeds exactly when all five numeric fields convert, and then yields the candle with the row's time and converted fields |
| `Store.CandleOf` | main.py:24-32 | the candle built from a row whose numbers all convert is exactly the one `ParseCandle` returns for it |
| `Store.Step` | main.py:25-32 | applying one row keeps every queue within 100 candles (its effect on each symbol is given by `Store.StepEffect`) |
| `Store.StepEffect` | main.py:25-32 | an applied row adds only its own symbol, appends its candle to that symbol's queue with eviction, and leaves every other symbol's queue unchanged |
| `Store.FirstFailure` | main.py:21-31 | the returned position is at most the row count, every earlier row applies, and the row at that position (if any) does not |
| `Store.Ingested` | main.py:21-35 | every queue stays within 100 candles after any request, and the outcome is `Ok` exactly when every row applies |
| `Store.RunRows` | main.py:21-35 | the handler's loop as a recursion with early returns keeps every queue within 100 candles and returns `Ok` exactly when every row applies |
| `Store.RunRowsIsIngested` | main.py:21-35 | the handler's row-by-row loop with its early returns computes exactly the outcome and store that `Ingested` describes |
| `Store.IngestedCons` | main.py:21-32 | a request whose first row applies behaves as that row's append followed by the request of the remaining rows |
| `Store.ApplyAllPerSymbol` | main.py:21-32 | after rows that all apply, each symbol's queue is the last 100 of its old candles followed by the candles of the rows naming it, in row order |
| `Store.ApplyAllKeys` | main.py:21-32 | rows that all apply add exactly the symbols they name to the store's key set |
| `Store.UnnamedGetsNothing` | main.py:21-32 | a symbol that no row names receives no candles |
| `Store.IngestAllRows` | main.py:21-33 | a request whose rows all apply succeeds; the per-symbol contents are old candles then new ones in row order, bounded by 100; exactly the named symbols are added; unnamed symbols keep their presence and contents |
| `Store.IngestStopsAtInvalidFormat` | main.py:22-23 | at the first row without seven fields the result is `InvalidFormat`, the store is the earlier rows applied and nothing else, and the bad row adds no entry of its own |
| `Store.WrongShapeFirstRowChangesNothing` | main.py:22-23 | a request whose first row has the wrong shape fails with `InvalidFormat` and leaves the store exactly as it was |
| `Store.IngestStopsAtParseError` | main.py:25-35 | at the first seven-field row whose numbers do not convert the result is `ParseError`; the earlier rows stay applied; no candle is added for this or any later row; the row's symbol gains an entry (empty if new) |
| `Store.IngestKeepsAppliedPrefix` | main.py:21-35 | whatever the outcome, each symbol's queue reflects exactly the rows before the first failing one: there is no rollback and nothing after it |
| `Store.EmptyBodyChangesNothing` | main.py:16-33 | a request with no rows succeeds and leaves the store unchanged |
| `Store.SingleRowReadsBack` | main.py:21-39 | one well-formed row sent to an empty store creates its symbol alone, holding exactly that candle |
| `Store.CandleStore.constructor` | main.py:11 | the store starts empty and within its capacity bound |
| `Store.CandleStore.ReceiveWebhook` | main.py:13-35 | the loop returns the outcome and leaves the store that `Ingested` gives for the old store and the rows, and keeps every queue within 100 candles |
| `Store.CandleStore.AppendRow` | main.py:22-32 | one pass of the loop: a wrong-shaped row stops with `InvalidFormat` and changes nothing; a failed conversion stops with `ParseError` after creating the entry; otherwise exactly one candle is appended to the row's symbol |
| `Store.CandleStore.GetCandles` | main.py:37-40 | the read returns the symbol's queue in storage order, or empty for an unknown symbol, within 100 candles, and changes nothing (no `modifies`) |

## Left out

- The web framework: routing, the async body read, `JSONResponse` and status codes. Only the result tag (`Ok`, `InvalidFormat` for 400, `ParseError` for 500) is modelled, not the response payloads or the error message text from `str(e)`.
- UTF-8 decoding, `strip()` and the CSV reader's quoting and dialect rules are library behaviour. The model takes the rows the reader yields as its input.
- Floating-point conversion and the float values: `float` is the abstract parameter `parse`, and the model does not reason about which strings convert or to what.
- Exceptions caught by the catch-all handler other than a failed numeric conversion, such as errors raised by the CSV reader in the middle of the rows. They come from library internals.
- Concurrent requests: the handlers are modelled as running one at a time, each to completion.
- The per-symbol queues are values in the store's map rather than separate objects. The source never shares a queue between symbols, so no aliasing is lost. `list(...)` on read is the copy a sequence value already is.
- `GetCandles` returns only the candles, not the `{symbol, candles}` wrapper.
