# cara-core-dashboard in Dafny

This project models the logic of a small sales and stock dashboard. The
server reads a CSV of `timestamp, produto, vendas, estoque` rows, aggregates
it into a snapshot, and pushes that snapshot to the browser. The browser
shows the snapshot as summary fields, two product tables, a pie chart and
two line charts. A few scripts generate synthetic CSV data.

The model covers these parts:

- **The three browser scripts**, app.js, app_complete.js and app_working.js.
  They are near-duplicates, so one model carries a `Variant` parameter.
  - `Table`: the table projection `renderTable`/`updateTable`.
  - `JsValue` and `SnapshotView`: the summary-field fallbacks `??` and `||`.
  - `Series`: the series builder `buildCharts`.
  - `Charts`: the chart cache `ensureChart`, `buildPieChart`, and the tail of
    `buildCharts`.
  - `Sync`: the WebSocket and poll controller, with sockets, timers and
    fetches as explicit events and effects.
- **The snapshot loader** `DataManager` of app/data_loader.py (`Loader`).
  It covers the mtime gate, the five read attempts, the aggregation done as
  one fold and proved equal to the pandas-style reference aggregates, and
  `_notify`.
- **The data generators.**
  - generate_batch_data.py (`BatchData`) and update_simulator.py
    (`Simulator`) share the clamped stock recurrence `max(0, s - v)` of
    `Stock`.
  - src/quick_demo_data.py (`QuickDemo`) shares it too.
  - src/create_demo_screenshot.py (`Screenshot`) has its own recurrence with
    a floor of 10.
  - Python's `str.strip`, `int` and `str` on decimal text are in `PyText`.

Randomness, clock readings, file contents and the outcomes of file reads
are parameters. The endless simulator loop is modelled by its first n
ticks. Timestamps are whole minutes, held as integers.

Files: common.dfy, jsvalue.dfy, table.dfy, snapshot_view.dfy, series.dfy,
charts.dfy, sync.dfy, loader.dfy, pytext.dfy, stock.dfy, batch.dfy,
simulator.dfy, quickdemo.dfy, screenshot.dfy.

## Model

| member | source | states |
|---|---|---|
| Table.RenderTableRows | app/static/app_complete.js:26-47 | A missing or empty object renders exactly one row, the "Sem dados" placeholder with colSpan 2. Otherwise there is one item row per entry, keys are strictly ascending, and a (key, value) pair is shown exactly when it is an entry of the object. |
| Table.RenderTable | app/static/app.js:41-59 | The placeholder appears if and only if the object is missing or empty. Otherwise the rows are all items, as many as the entries, sorted by key, and a permutation (multiset) of the entries. The same projection is `renderTable` in app_complete.js and `updateTable` in app_working.js. |
| Table.SortByKey | app/static/app_working.js:68 | The sort yields keys in ascending order and a permutation of its input. With distinct keys, the keys are strictly ascending. |
| Table.InsertPermutes | app/static/app_complete.js:37 | One insertion step adds exactly the inserted entry and loses nothing. |
| Table.MissingObjectDefaultsToEmpty | app/static/app_working.js:32-33 | Replacing a missing object by `{}` renders the same rows as the missing object, i.e. the single placeholder. |
| Common.Dedup | app/static/app_complete.js:177 | `Array.from(new Set(xs))` has no duplicates and has exactly the elements of `xs`. |
| Common.DedupFirstSeenOrder | app/static/app_complete.js:177 | The distinct elements come in the order of their first occurrence. |
| JsValue.NullishFallback | app/static/app.js:22-25 | `v ?? '--'` shows the dashes exactly when `v` is null or undefined; otherwise it shows `v` itself. |
| JsValue.FalsyFallback | app/static/app_working.js:20-23 | The logical-or fallback (`v OR '--'` in JavaScript's double-bar form) shows the dashes exactly when `v` is falsy; otherwise it shows `v` itself. |
| JsValue.FallbacksDisagreeExactlyOnFalsyNonNullish | app/static/app_working.js:20-23 | The two idioms differ exactly on values that are falsy but not nullish (0, '', false). There `??` shows the value and the logical-or shows dashes. Every nullish value is falsy. |
| JsValue.ZeroDisplay | app/static/app.js:22-25 | A count of 0 is shown as 0 by `??` and as `--` by the logical-or. |
| SnapshotView.Render | app/static/app_working.js:20-33 | For each of the four summary fields (total, last timestamp, line count, update time): in app.js and app_complete.js (`updateSnapshot`, app_complete.js:253-256) the field shows dashes iff its value is null or undefined; in app_working.js (`updateDashboard`) iff the value is falsy; otherwise it shows the value itself. Both tables are `renderTable` of the snapshot's objects, app_working.js first replacing a missing object by `{}`. |
| SnapshotView.RenderExample | app/static/app_complete.js:253-258 | Concrete case: total 42 and sales {"B": 5, "A": 10} show 42 and the rows A (10) then B (5) in every variant; a missing stock object shows the placeholder. |
| SnapshotView.TableExample | app/static/app_complete.js:37-47 | The object {"B": 5, "A": 10} renders as row A then row B. |
| Series.BuildSeries | app/static/app_complete.js:163-225 | An empty or non-array payload gives None, so the charts are left alone. Otherwise: the label axis holds exactly the labels (`timestamp`, or `timestamp_str` when that is falsy), without duplicates and in first-seen order, with `undefined` and `null` as two labels. There is one dataset per distinct product key `String(p)`, in the order the keys first appear, and every series is as long as the axis. Every cell holds the reference value of the product that owns the dataset's key. |
| Series.Owner | app/static/app_complete.js:185-201 | The product whose series a dataset key holds has that key, and no other product with the key first appears after it: the later `vendasSeries[p]` assignment overwrites the earlier. |
| Series.OwnerIsUnique | app/static/app_complete.js:185-201 | At most one product owns a given key. |
| Series.NullAndStringNullShareDataset | app/static/app_complete.js:185-225 | Two rows at one timestamp with products `null` and "null" give a single dataset "null" holding the second row's stock. The first row is drawn nowhere. |
| Series.GroupByTimestamp | app/static/app_complete.js:178-183 | `rowByLabel` holds, under each key, exactly the rows whose timestamp converts to that string key, in arrival order. A key that no row's timestamp converts to is absent. |
| Series.CellsAreReference | app/static/app_complete.js:189-201 | Through `rowByLabel`, for every label and product, the sales cell is the sum of the numeric sales (0 when not a number) over the rows with that timestamp and product, and the stock cell is the last such row's stock or null. |
| Series.SalesCellIsReference | app/static/app_complete.js:190-194 | Filtering a timestamp's group by product and summing gives the reference sum over the whole batch. |
| Series.StockCellIsReference | app/static/app_complete.js:196-201 | The last matching row of the group gives the reference last-wins stock of the whole batch. |
| Series.StockIsLastMatch | app/static/app_complete.js:196-201 | The stock cell is null when no row matches. Otherwise it is the stock of the matching row after which no other row matches. |
| Series.SalesRefAppend | app/static/app_complete.js:193 | Sales sums split over concatenated batches. |
| Series.UnmatchedLabelIsEmpty | app/static/app_complete.js:172-180 | A label whose key no row's `timestamp` shares gets sales 0 and stock null for every product. |
| Series.TimestampStrOnlyRow | app/static/app_complete.js:172-201 | A single row with a falsy `timestamp` gives the axis [its `timestamp_str`], and one dataset keyed by its product with sales [0] and stock [null], when the two keys differ. |
| Series.Tabulate | app/static/app.js:244-255 | The tabulated series have the given axis and dataset keys, and each series is as long as the axis. Every cell holds its reference value for the key's owning product: summed sales and last-wins stock per (label, product). |
| Series.LabelsOfMembers | app/static/app_complete.js:172-175 | A label is on the raw label list exactly when some row yields it. |
| Series.SameKeySameCells | app/static/app_complete.js:178-182 | Two labels with the same property key, such as `null` and the string "null", have the same sales and stock cells. |
| Series.UndefinedAndNullAreTwoLabels | app/static/app_complete.js:172-182 | A row with no timestamps and a row with both null give the axis [undefined, null], and each label reaches only its own row's stock. |
| Charts.EnsureChart | app/static/app.js:146-219 | A cached id returns its chart with the cache unchanged, without re-creating it. Otherwise the result is a chart exactly when the canvas can carry one; that chart is then cached under its id (a pie only for `chartPizza`, a line chart with the given y title otherwise). A failure returns null and caches nothing. Other entries are never touched. |
| Charts.EnsureChartIdempotent | app/static/app_complete.js:53-62 | A second call returns the same chart and changes nothing. A call that returned null left the id uncached. |
| Charts.BuildPieChart | app/static/app.js:276-308 | A missing or empty object, or a pie that cannot be had, changes nothing. Otherwise the pie's labels and data are parallel and in entry order. In app.js the colours are the first min(10, n) palette entries, a prefix of the palette; app_complete.js keeps the colours the pie got at construction. No other chart changes. |
| Charts.ApplyHistory | app/static/app_complete.js:204-228 | An empty or non-array payload leaves the cache unchanged. When both line charts can be had, they receive the label axis and their datasets. When either cannot, no chart receives data; only a freshly created empty chart may be added. |
| Charts.SalesDatasets | app/static/app_complete.js:214-219 | One line dataset per product, each sales value carried over unchanged. |
| Sync.OnOpen | app/static/app_complete.js:285-290 | An open of a connecting socket makes it open. In app.js and app_complete.js it resets the counter to 0 and sends a ping. It never arms a reconnect. |
| Sync.OnClose | app/static/app_complete.js:310-319 | In app.js and app_complete.js, below the cap the counter goes up by exactly one and one retry is armed after 2000 times the new counter. At the cap (10) nothing is armed and the counter stays. In app_working.js a close only changes the status. |
| Sync.OnMessage | app/static/app_working.js:135-145 | Only a parsed message of type "snapshot" with data is applied. Anything else, including a parse failure, leaves the controller as it was. A keep-alive ping is armed iff the variant is app.js/app_complete.js and the socket is open. |
| Sync.OnFetched | app/static/app_complete.js:265-277 | A fetched snapshot becomes the current one; a JSON null leaves it as it was (in `fetchData` of app_working.js too). The socket and counter are untouched. |
| Sync.Apply | app/static/app_working.js:16-39 | An applied snapshot (`updateSnapshot`, or `updateDashboard`, which records it as `lastData`) becomes current and the view is its render; the socket and counter are untouched. |
| Sync.Step | app/static/app_complete.js:279-355 | Every callback keeps the invariant: the view is the render of the current snapshot, the counter is at most 10, and the chart cache is well-formed. Only a close arms a reconnect, and only an open or a close moves the counter. |
| Sync.StepOpensSocket | app/static/app_complete.js:279-319 | A reconnect timer firing opens a socket exactly when a close armed one. No other callback except a page start opens a socket. |
| Sync.Run | app/static/app_complete.js:279-320 | Any sequence of callbacks keeps the invariant. |
| Sync.StepRetryDelays | app/static/app_complete.js:313-318 | One callback other than an open arms at most one reconnect timer. It does so only on a close, with delay 2000 times the new counter. |
| Sync.RetriesAreLinearAndCapped | app/static/app_complete.js:313-318 | Between opens, the armed delays are 2000(n+1), 2000(n+2), ... from the counter n. There are at most 10 - n of them, and the counter grows by their number. |
| Sync.AtCapNoMoreRetries | app/static/app_complete.js:313-318 | Once the counter is 10, no event sequence without an open arms another reconnect. |
| Sync.StepKeepsGaveUp | app/static/app_complete.js:310-319 | Suppose the controller has given up: the counter is at 10, no reconnect timer is armed, and the socket is neither connecting nor open. Then any callback except a page start keeps it so and opens no socket. |
| Sync.GaveUpIsPermanent | app/static/app_complete.js:310-319 | Once the controller has given up, no sequence of callbacks without a page start opens a socket or arms a reconnect, and the counter stays at 10. Reconnection stops for good. |
| Sync.CapReachedGivesUp | app/static/app_complete.js:310-319 | From counter 9 with no timer armed, a close, its retry firing and another close arm the tenth retry after 20000 ms, open one socket, and leave the controller given up. |
| Sync.CountCloses | app/static/app.js:96-104 | Without opens, the counter ends at min(10, start + number of closes). |
| Sync.WorkingNeverRetries | app/static/app_working.js:151-157 | app_working.js arms no reconnect on any sequence of events. |
| Sync.ShowsLastDelivered | app/static/app_working.js:36 | After any callbacks, the current snapshot (`lastData`) is the last one a message or fetch delivered, and the view shows it. |
| Sync.StepCurrent | app/static/app_working.js:36 | One callback sets the current snapshot to what it delivers, if anything, and otherwise keeps it. |
| Sync.PollGate | app/static/app_complete.js:344-348 | In every variant (also app.js line 131 and app_working.js lines 185-192), a poll tick issues a fetch exactly when the socket is absent or not open, and changes nothing else. |
| Loader.AggregateMeaning | app/data_loader.py:127-145 | `linhas` is the row count. The total is the sum of every sale (absent without a `vendas` column). A product has a sales entry and a stock entry exactly when some row names it; these hold its sales sum and its last stock. `ultimo_timestamp` is an upper bound of all timestamps present, absent iff none is. |
| Loader.ComputeSnapshot | app/data_loader.py:127-145 | One pass that folds every row into running aggregates yields exactly the reference snapshot. |
| Loader.Products | app/data_loader.py:129-134 | The group keys are exactly the products some row names. |
| Loader.MaxTimestamp | app/data_loader.py:135-137 | The maximum is absent iff every row lacks a timestamp. Otherwise some row carries it and it bounds every timestamp present. |
| Loader.SumsAppend | app/data_loader.py:128 | The total and each product's sum split over concatenated rows. |
| Loader.LastEstoqueIsLast | app/data_loader.py:129-131 | The stock entry is the stock of a row of that product after which no row of that product has a stock. It is absent iff no row of the product has one. |
| Loader.AbsentProduct | app/data_loader.py:129-134 | A product that no row names sums to 0 and has no stock. |
| Loader.FoldStep | app/data_loader.py:127-137 | Folding one more row keeps the running aggregates equal to those of the rows seen. |
| Loader.FirstRead | app/data_loader.py:105-113 | The read loop ends with the first successful outcome among the first five attempts, or with nothing iff all of those fail. |
| Loader.LoadIfChanged | app/data_loader.py:97-158 | These leave the state unchanged and notify no one: a missing file; an unforced call on a file no newer than the last load; five failed reads; an empty frame; an aggregation that raises because the timestamp column did not parse yet is not all missing. Otherwise the state holds the aggregated snapshot and the file's mtime, and subscribers are notified. |
| Loader.UnparsableTimestampsNeverLoad | app/data_loader.py:122-137 | A file whose timestamps `pd.to_datetime` rejects, yet not all missing, is never loaded. Every later call on it, forced or not, fails the same way and notifies no one, and the state stays as it was. |
| Loader.RepeatIsNoOp | app/data_loader.py:146-148 | After a load that replaced the snapshot, an unforced call on the same file is a no-op, whatever its reads would yield. |
| Loader.UnforcedLoadsAreMonotone | app/data_loader.py:99-103 | Without forcing, the recorded mtime never decreases, and the state changes only through a file strictly newer than the start. |
| Loader.Notify | app/data_loader.py:89-95 | Every subscriber is called once, in order, with the snapshot. Each failing subscriber costs one warning and does not stop the rest. |
| Loader.Reload | app/data_loader.py:146-158 | Subscribers are called exactly when the snapshot was replaced, each once with the new snapshot. |
| BatchData.TruncDiv | generate_batch_data.py:38 | `int(a / b)` truncates toward zero: the magnitude is the quotient of the magnitudes and the sign follows the operands. |
| BatchData.TruncatesTowardZero | generate_batch_data.py:38 | -7/5 gives -1 (not -2), 7/-5 gives -1, 30/5 gives 6. |
| BatchData.GerarDados | generate_batch_data.py:24-60 | A start `duracao` minutes before now that leaves the `datetime` range (0001-01-01 to 9999-12-31) is the `OverflowError`, raised before the division. Otherwise a zero interval is the division error. Otherwise the row count is max(0, int(duracao/intervalo) + 1) times the number of products, and the rows are the stock recurrence over the schedule starting `duracao` minutes before now, and every timestamp written lies in the `datetime` range. A None product list means the three default products. Neither error writes anything. |
| BatchData.StepTimeInRange | generate_batch_data.py:37-42 | Every step's time lies between the start and now, so when the start exists no step of the loop overflows. |
| BatchData.ScheduleInRange | generate_batch_data.py:41-44 | A schedule whose step times all lie in the `datetime` range has every slot in it. |
| BatchData.RowsInRange | generate_batch_data.py:37-53 | Every row written carries a timestamp inside the `datetime` range. |
| BatchData.GenerateRows | generate_batch_data.py:41-54 | The nested loops produce exactly the recurrence's rows over the step-major schedule. |
| BatchData.GenerateStep | generate_batch_data.py:44-54 | One step appends the rows of its products, and the stock dictionary holds each product's current stock. |
| BatchData.ScheduleAt | generate_batch_data.py:41-44 | Slot i·n + j of the schedule is product j at `inicio + i·intervalo`. |
| BatchData.BatchLayout | generate_batch_data.py:41-53 | Row i·n + j is product j stamped `inicio + i·intervalo`, and every sale lies in [0, 10]. |
| BatchData.BatchStock | generate_batch_data.py:39-46 | Each row's stock is `max(0, previous - sale)`. Stock is never negative, never above the initial stock (or 0), and never rises along one product's rows. |
| BatchData.Split | generate_batch_data.py:72 | `str.split(',')` gives at least one piece, none containing a comma. |
| BatchData.SplitJoin | generate_batch_data.py:72 | Splitting undoes joining comma-free pieces with commas. |
| BatchData.ParseProdutos | generate_batch_data.py:72 | Every parsed product name is non-empty, stripped and comma-free. |
| BatchData.ParseJoin | generate_batch_data.py:72 | A list of non-empty, stripped, comma-free names parses back from its comma join unchanged. |
| BatchData.KeepNonEmptyCons | generate_batch_data.py:72 | The parser drops blank items, strips the others, and keeps their order. |
| PyText.Strip | generate_batch_data.py:72 | `str.strip()` is the slice left after the leading whitespace and then a trailing run of whitespace; neither end of it is whitespace. |
| PyText.StripEmptyIffBlank | generate_batch_data.py:72 | An item strips to the empty string iff it is all whitespace. |
| PyText.StripStripped | generate_batch_data.py:72 | Stripping is idempotent on stripped text. |
| PyText.IntOfShowInt | update_simulator.py:28 | What `str(n)` writes to the CSV, `int()` reads back as n. |
| Stock.DepleteRecurrence | generate_batch_data.py:46 | Every generated row's stock is `max(0, stock of its product before it - its sale)`. |
| Stock.StockNeverRises | generate_batch_data.py:39-46 | Under the recurrence with non-negative sales, stock is never negative, never above the product's starting stock (or 0), and never rises along one product's rows. |
| Stock.DepleteFields | generate_batch_data.py:47-53 | Row k carries slot k's timestamp and product and sells draw k. |
| Stock.Stocks | update_simulator.py:59 | The stock dictionary holds exactly the starting products and those some row names, each at its current stock. |
| Stock.StocksGet | update_simulator.py:59 | `estoque.get(produto, 100)` on that dictionary is the product's current stock. |
| Simulator.LerEstoques | update_simulator.py:18-35 | Every fixed product is present. A missing file gives 100 for each of the four products. Otherwise the keys are the fixed products plus every product some row states, each at its last stated stock, else 100. |
| Simulator.ReadStocks | update_simulator.py:25-32 | The last row wins. Products outside the fixed list are added. Rows whose stock does not parse or whose product is empty are skipped. An empty stock counts as 0. |
| Simulator.ReadStocksSnoc | update_simulator.py:25-32 | One more row updates its product's entry iff the row has a named product and a parsable stock. |
| Simulator.AppendLinha | update_simulator.py:38-50 | A missing file becomes the header plus the row. An existing file gains exactly the row at its end. |
| Simulator.HeaderOnce | update_simulator.py:40-44 | Appending to an existing file adds data lines only. A file the simulator creates holds exactly one header, on its first line. |
| Simulator.Simulate | update_simulator.py:53-61 | n ticks write the recurrence's rows with unknown products starting at 100, the dictionary ends at every product's stock, and the file gains those rows. |
| Simulator.TickRow | update_simulator.py:57-60 | The row a tick writes from the dictionary is the row the recurrence produces for its slot. |
| Simulator.SimulatedStock | update_simulator.py:57-59 | Each tick sells 1 to 8 units of a listed product. Stock is never negative, never above the product's start (or 0), and never rises along one product's rows. |
| Simulator.RestartContinues | update_simulator.py:18-35 | A restarted simulator reading back the rows appended so far recovers exactly the stocks it held after writing them. |
| Simulator.AsDictUpdates | update_simulator.py:26-32 | A written row with a named product reads back as that product and stock. |
| QuickDemo.Window | src/quick_demo_data.py:24 | `rows[-10:]` is the last min(10, n) rows, in file order. |
| QuickDemo.ApplyRow | src/quick_demo_data.py:25-30 | A row never adds a key: only the five demo products are updated. |
| QuickDemo.ApplyRowAt | src/quick_demo_data.py:25-30 | A row changes a product's entry only when it is for that product and its stock converts. A row without the column, or whose value does not convert, leaves the previous value. |
| QuickDemo.RecoverAsWritten | src/quick_demo_data.py:16-32 | As written: the defaults when the file is unreadable. Otherwise each product gets the stock of its OLDEST usable row in the last ten rows, else its default. |
| QuickDemo.FoldNewestFirstKeepsOldest | src/quick_demo_data.py:24-30 | Walking the window newest-first and overwriting leaves each product at its oldest setting. |
| QuickDemo.OldestRowWins | src/quick_demo_data.py:24-28 | For two rows of one product stating a then b, the code as written recovers a and the intended recovery recovers b. |
| QuickDemo.StockStepsBack | src/quick_demo_data.py:24-28 | Rows stating 150 and then 140 for Produto A: as written recovers 150, intended recovers 140. |
| QuickDemo.AsWrittenStepsBack | src/quick_demo_data.py:18-44 | As written, once the window holds two points, the next point starts from the OLDER point's stocks. |
| QuickDemo.Recover | src/quick_demo_data.py:16-32 | Corrected: each product gets its NEWEST usable row's stock in the last ten rows, else its default. |
| QuickDemo.FoldOldestFirstKeepsNewest | src/quick_demo_data.py:23-30 | Walking the window oldest-first leaves each product at its newest setting. |
| QuickDemo.AddDemoPoint | src/quick_demo_data.py:38-44 | One call appends exactly five rows, each selling between 0 and 8, and only ever adds keys for the demo products. |
| QuickDemo.DemoPointRows | src/quick_demo_data.py:36-44 | Row k is product k at the shared minute, selling its draw, with stock `max(0, recovered - sold)`. The dictionary ends at those stocks. |
| QuickDemo.PointsContinue | src/quick_demo_data.py:18-44 | With the corrected recovery, when the records read back end with a point's rows, the next call starts from that point's stocks, whatever records precede them. |
| QuickDemo.WritePoint | src/quick_demo_data.py:38-44 | Appending a point keeps the earlier lines. It adds five lines `[timestamp_str, product, sold, stock]`, one per demo product in order, with stock `max(0, recovered - sold)`. The dictionary ends at those stocks. |
| QuickDemo.AddDemoPointToFile | src/quick_demo_data.py:11-44 | One call as written: it recovers the stocks from the file as written (the defaults when the file is missing), then appends the five lines and no header, creating the file if needed. |
| QuickDemo.AddDemoPointFixed | src/quick_demo_data.py:11-44 | Corrected call: it recovers the newest stocks and writes the header first when it creates the file. |
| QuickDemo.HeaderReadsPoint | src/quick_demo_data.py:19-21 | Under the header `timestamp,produto,vendas,estoque`, a point's written lines read back through `csv.DictReader` as its rows. |
| QuickDemo.ReadBackAfterPoint | src/quick_demo_data.py:19-21 | Under that header, the file after a point reads back as the earlier records followed by the point's rows. |
| QuickDemo.HeaderlessFileKeepsDefaults | src/quick_demo_data.py:19-30 | When the first line has no `produto` column, no record names a product, so both recoveries give the defaults. |
| QuickDemo.MissingFileKeepsDefaults | src/quick_demo_data.py:18-44 | As written, starting without the file: the first call writes a data line where the header belongs. From then on, whatever is appended, both recoveries give the defaults. |
| QuickDemo.FixedCallsContinue | src/quick_demo_data.py:18-44 | Corrected, starting from a missing file or one under the standard header: the file keeps that header, and the next call recovers exactly the stocks this call wrote. |
| Screenshot.GerarDadosScreenshot | src/create_demo_screenshot.py:10-58 | Writes 25 × 5 = 125 rows that follow the two recurrences. Sales are never negative and stock never below 10. Each row's stock lies between max(10, previous - 10) and max(10, previous + 1). |
| Screenshot.RunSlots | src/create_demo_screenshot.py:35-52 | The loop with its two running dictionaries produces one row per slot, each the row its slot and draws produce. |
| Screenshot.ScreenshotBounds | src/create_demo_screenshot.py:39-45 | Sales ≥ 0 and stock ≥ 10. A row moves its product's sales by -3..+8, clamped at 0, and its stock up by at most 1 and down by at most 10, clamped at 10. |
| Screenshot.ScreenshotLayout | src/create_demo_screenshot.py:35-38 | Step i's rows hold the five products in order at `agora - 5·(24 - i)`. The first row is two hours before now and the last is at now. |
| Screenshot.CurrentTotal | src/create_demo_screenshot.py:65 | The printed total of the last five rows is the sum of every product's final sales. |

## Left out

- The DOM and Chart.js are out of scope. The page's elements are assumed present; Chart.js options and the pie tooltip's percentage (float division and `toFixed`) are not modelled.
- `localeCompare` is approximated by ordinal string order. JavaScript's reordering of integer-like object keys is ignored: objects are their entries in insertion order.
- Numbers in JavaScript values are integers. NaN and fractional sales are not modelled.
- Real sockets, timers and fetches become events and effects. The keep-alive ping is only armed and sent, and its exact timing is not modelled.
- Threads, `RLock`, the watchdog observer and the poll loop's sleep in app/data_loader.py are out of scope. Timestamps arrive as parsed integers, not via `pd.to_datetime`; whether that conversion succeeded is a flag of the frame. The mtime is an integer, not a float. `atualizado_em` is a parameter.
- Loader.GetSnapshot: returning a copy of the dictionary is not stated, because snapshots are immutable values here.
- Python's `int` also accepts non-ASCII decimal digits and underscores between digits. Only ASCII digits are modelled.
- CSV parsing and writing are modelled as rows already read or lines written, already split into fields. Quoting and encodings are not modelled. In app/data_loader.py the `vendas` and `estoque` cells are integers or missing. pandas' dtype inference is not modelled: a non-numeric `vendas` cell makes the column text, so `df['vendas'].sum()` joins strings, and a missing cell makes the column float, so the total is a float. Only src/quick_demo_data.py's reading models the header line, because it appends without one.
- QuickDemo.AddDemoPointToFile: a file that exists but cannot be read (say, a decoding error) is treated like a missing one for recovery, but the model then appends to an empty file rather than to the unreadable contents.
- Series: a timestamp that is a number or an object is not modelled; timestamps are absent, null or strings.
- Series.BuildSeries: a product that is a number or an object is not modelled either; products are absent, null or strings, as timestamps are.
- `strftime`/`isoformat` formatting is out of scope: timestamps are whole minutes counted from `datetime.min`, and the seconds of `agora` are dropped, which does not change which starts overflow.
- update_simulator.py's endless loop is modelled by its first n ticks, and its `sleep` is left out.
- The total printed by src/quick_demo_data.py is left out: it sums fresh random numbers unrelated to the rows.
- app/main.py (the FastAPI server and its connection manager), app/logging_setup.py, app/static/app_test.js and the tests are not part of this model.

## Findings

| source | as written | input that shows it | evidently intended | confidence | as-written member | corrected member |
|---|---|---|---|---|---|---|
| src/quick_demo_data.py:24-28 | The loop walks `reversed(rows[-10:])` and overwrites the entry each time, so the OLDEST usable row in the window wins. | Two rows for Produto A stating 150 and then 140: the recovered stock is 150, and the new point's stock steps back up. | The comment says the loop takes the latest stock per product, so 140 (the newest row) should win. | not executed | QuickDemo.RecoverAsWritten | QuickDemo.Recover |
| src/quick_demo_data.py:18-44 | Once the window holds two points, the next point starts from the older point's stocks. | A file whose last ten rows are two points, the older leaving Produto A at 150 and the newer at 140: the third call sells from 150. | Each point should continue from the stocks the previous point wrote. | not executed | QuickDemo.AsWrittenStepsBack | QuickDemo.PointsContinue |
| src/quick_demo_data.py:18-44 | A missing file is created by the append with bare data lines and no header. `csv.DictReader` then takes the first data line as the column names, so no later record has a `produto` key. | Start without app/sample_data.csv: every later call recovers the defaults 180, 190, 185, 195, 188, whatever the earlier points wrote. | Write the `timestamp,produto,vendas,estoque` header when creating the file, as update_simulator.py does, so each call continues from the previous point. | not executed | QuickDemo.MissingFileKeepsDefaults | QuickDemo.AddDemoPointFixed |
