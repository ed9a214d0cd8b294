/** The server-side snapshot loader, `DataManager` in app/data_loader.py:
    the mtime gate of `_load_if_changed`, its bounded read retries, the
    aggregation of the parsed CSV into a snapshot, and `_notify`.

    The CSV arrives already parsed: a frame is the set of expected columns
    the header carried and the rows, each field None where pandas holds
    NaN/NaT (or where the column is absent). Timestamps are integers (the
    result of `pd.to_datetime`, compared as instants); a frame also records
    whether that conversion succeeded, since a failure is swallowed and the
    column stays text, on which the later `.isoformat()` raises and the
    whole load is abandoned. The file system is a
    parameter: whether the file exists, its mtime, and the outcome of each
    successive read attempt. The wall-clock `atualizado_em` string is a
    parameter too. */
module Loader {
  import opened Common

  datatype CsvRow = CsvRow(
    timestamp: Option<int>,
    produto: Option<string>,
    vendas: Option<int>,
    estoque: Option<int>)

  /** A parsed CSV: which of the four expected columns are present, whether
      `pd.to_datetime` accepted the timestamp column, and the rows. */
  datatype Frame = Frame(
    hasTimestamp: bool,
    hasProduto: bool,
    hasVendas: bool,
    hasEstoque: bool,
    timestampsParse: bool,
    rows: seq<CsvRow>)

  /** The aggregation raises: the timestamp column stayed text and is not
      all missing, so its maximum is a string (or the comparison of text
      with NaN fails) and `.isoformat()` is never reached successfully. */
  predicate AggregationRaises(f: Frame) {
    && f.hasTimestamp
    && !f.timestampsParse
    && !(forall i :: 0 <= i < |f.rows| ==> f.rows[i].timestamp.None?)
  }

  /** The dictionary `_load_if_changed` stores. Product-keyed dictionaries
      are maps; `estoque_por_produto` holds None for a product whose rows
      all lack a stock value (pandas' `last()` gives NaN there). */
  datatype Snapshot = Snapshot(
    totalVendas: Option<int>,
    estoquePorProduto: map<string, Option<int>>,
    vendasPorProduto: map<string, int>,
    linhas: nat,
    ultimoTimestamp: Option<int>,
    atualizadoEm: string)

  // ---------------------------------------------------------------------------
  // Reference aggregates (pandas semantics: sums and `last` skip missing values,
  // `groupby` drops rows whose key is missing)
  // ---------------------------------------------------------------------------

  function Vendas(row: CsvRow): int {
    row.vendas.GetOr(0)
  }

  /** `df['vendas'].sum()`. */
  function SumVendas(rows: seq<CsvRow>): int
    decreases |rows|
  {
    if |rows| == 0 then 0 else SumVendas(rows[..|rows| - 1]) + Vendas(rows[|rows| - 1])
  }

  /** The sales of the rows for product `p`: one group of
      `groupby('produto')['vendas'].sum()`. */
  function SumVendasOf(rows: seq<CsvRow>, p: string): int
    decreases |rows|
  {
    if |rows| == 0 then 0
    else
      var last := rows[|rows| - 1];
      SumVendasOf(rows[..|rows| - 1], p) + (if last.produto == Some(p) then Vendas(last) else 0)
  }

  /** The stock of the last row for `p` that has one: one group of
      `groupby('produto')['estoque'].last()`. */
  function LastEstoque(rows: seq<CsvRow>, p: string): Option<int>
    decreases |rows|
  {
    if |rows| == 0 then None
    else
      var last := rows[|rows| - 1];
      if last.produto == Some(p) && last.estoque.Some? then last.estoque
      else LastEstoque(rows[..|rows| - 1], p)
  }

  /** The group keys: every product some row names. */
  function Products(rows: seq<CsvRow>): (ps: set<string>)
    ensures forall p :: p in ps <==> exists i :: 0 <= i < |rows| && rows[i].produto == Some(p)
    decreases |rows|
  {
    if |rows| == 0 then {}
    else
      var init := rows[..|rows| - 1];
      var last := rows[|rows| - 1];
      var ps := Products(init);
      assert forall i :: 0 <= i < |init| ==> init[i] == rows[i];
      ps + (if last.produto.Some? then {last.produto.value} else {})
  }

  /** `df['timestamp'].max()`: the latest timestamp present, None when every
      row lacks one. */
  function MaxTimestamp(rows: seq<CsvRow>): (m: Option<int>)
    ensures m.None? <==> forall i :: 0 <= i < |rows| ==> rows[i].timestamp.None?
    ensures m.Some? ==>
      && (exists i :: 0 <= i < |rows| && rows[i].timestamp == m)
      && (forall i :: 0 <= i < |rows| && rows[i].timestamp.Some? ==> rows[i].timestamp.value <= m.value)
    decreases |rows|
  {
    if |rows| == 0 then None
    else
      var init := rows[..|rows| - 1];
      var t := rows[|rows| - 1].timestamp;
      var m := MaxTimestamp(init);
      assert forall i :: 0 <= i < |init| ==> init[i] == rows[i];
      if t.None? then m
      else if m.None? then t
      else Some(Max(m.value, t.value))
  }

  /** `groupby("produto")["vendas"].sum()`: every product's sales total. */
  function VendasMap(rows: seq<CsvRow>): map<string, int> {
    map p | p in Products(rows) :: SumVendasOf(rows, p)
  }

  /** `groupby("produto")["estoque"].last()`: every product's last stock. */
  function EstoqueMap(rows: seq<CsvRow>): map<string, Option<int>> {
    map p | p in Products(rows) :: LastEstoque(rows, p)
  }

  /** The snapshot of a non-empty frame: the total is absent without a
      `vendas` column, the product dictionaries are empty without the
      columns they group, and the latest timestamp is absent without a
      `timestamp` column or when every timestamp is missing. */
  function Aggregate(f: Frame, now: string): Snapshot {
    var rows := f.rows;
    Snapshot(
      if f.hasVendas then Some(SumVendas(rows)) else None,
      if f.hasProduto && f.hasEstoque then EstoqueMap(rows) else map[],
      if f.hasProduto && f.hasVendas then VendasMap(rows) else map[],
      |rows|,
      if f.hasTimestamp then MaxTimestamp(rows) else None,
      now)
  }

  // ---------------------------------------------------------------------------
  // Properties of the aggregates
  // ---------------------------------------------------------------------------

  /** What the snapshot says about the rows: `linhas` counts them, the total
      adds up every sale, a product has a sales and a stock entry exactly
      when some row names it, and `ultimo_timestamp` is the latest timestamp
      present, absent only when no row carries one. */
  lemma AggregateMeaning(f: Frame, now: string)
    ensures var s := Aggregate(f, now);
      && s.linhas == |f.rows|
      && s.atualizadoEm == now
      && (s.totalVendas.Some? <==> f.hasVendas)
      && (f.hasVendas ==> s.totalVendas == Some(SumVendas(f.rows)))
      && (f.hasProduto && f.hasVendas ==> forall p ::
            (p in s.vendasPorProduto <==> exists i :: 0 <= i < |f.rows| && f.rows[i].produto == Some(p)) &&
            (p in s.vendasPorProduto ==> s.vendasPorProduto[p] == SumVendasOf(f.rows, p)))
      && (f.hasProduto && f.hasEstoque ==> forall p ::
            (p in s.estoquePorProduto <==> exists i :: 0 <= i < |f.rows| && f.rows[i].produto == Some(p)) &&
            (p in s.estoquePorProduto ==> s.estoquePorProduto[p] == LastEstoque(f.rows, p)))
      && (!(f.hasProduto && f.hasVendas) ==> s.vendasPorProduto == map[])
      && (!(f.hasProduto && f.hasEstoque) ==> s.estoquePorProduto == map[])
      && (f.hasTimestamp ==>
            && (s.ultimoTimestamp.None? <==> forall i :: 0 <= i < |f.rows| ==> f.rows[i].timestamp.None?)
            && (s.ultimoTimestamp.Some? ==> forall i :: 0 <= i < |f.rows| && f.rows[i].timestamp.Some? ==>
                  f.rows[i].timestamp.value <= s.ultimoTimestamp.value))
      && (!f.hasTimestamp ==> s.ultimoTimestamp.None?)
  {
  }

  lemma {:induction false} AbsentProduct(rows: seq<CsvRow>, p: string)
    requires p !in Products(rows)
    ensures SumVendasOf(rows, p) == 0 && LastEstoque(rows, p) == None
    decreases |rows|
  {
    if |rows| > 0 {
      var init := rows[..|rows| - 1];
      assert forall i :: 0 <= i < |init| ==> init[i] == rows[i];
      AbsentProduct(init, p);
    }
  }

  /** Sales totals do not depend on how the rows are split: the sum over a
      concatenation is the sum of the sums, overall and per product. */
  lemma {:induction false} SumsAppend(a: seq<CsvRow>, b: seq<CsvRow>, p: string)
    ensures SumVendas(a + b) == SumVendas(a) + SumVendas(b)
    ensures SumVendasOf(a + b, p) == SumVendasOf(a, p) + SumVendasOf(b, p)
    decreases |b|
  {
    if |b| > 0 {
      var b0 := b[..|b| - 1];
      assert (a + b)[..|a + b| - 1] == a + b0;
      assert (a + b)[|a + b| - 1] == b[|b| - 1];
      SumsAppend(a, b0, p);
    } else {
      assert a + b == a;
    }
  }

  /** `estoque_por_produto[p]` is the stock of the last row for `p` that
      carries one: some row j of product p has it, and no later row of p
      has a stock. */
  lemma {:induction false} LastEstoqueIsLast(rows: seq<CsvRow>, p: string)
    ensures LastEstoque(rows, p).Some? ==>
      exists j :: 0 <= j < |rows| && rows[j].produto == Some(p) && rows[j].estoque == LastEstoque(rows, p) &&
        forall k :: j < k < |rows| ==> !(rows[k].produto == Some(p) && rows[k].estoque.Some?)
    ensures LastEstoque(rows, p).None? <==>
      forall k :: 0 <= k < |rows| ==> !(rows[k].produto == Some(p) && rows[k].estoque.Some?)
    decreases |rows|
  {
    if |rows| > 0 {
      var init := rows[..|rows| - 1];
      var n := |rows| - 1;
      assert forall i :: 0 <= i < |init| ==> init[i] == rows[i];
      LastEstoqueIsLast(init, p);
      if !(rows[n].produto == Some(p) && rows[n].estoque.Some?) && LastEstoque(init, p).Some? {
        var j :| 0 <= j < |init| && init[j].produto == Some(p) && init[j].estoque == LastEstoque(init, p) &&
          forall k :: j < k < |init| ==> !(init[k].produto == Some(p) && init[k].estoque.Some?);
        assert rows[j] == init[j];
      }
    }
  }

  // ---------------------------------------------------------------------------
  // The aggregation pass
  // ---------------------------------------------------------------------------

  /** The running aggregates of the single pass. */
  datatype Acc = Acc(total: int, vendas: map<string, int>, estoque: map<string, Option<int>>, latest: Option<int>)

  /** `acc` holds the aggregates of the rows `seen`. */
  predicate Holds(acc: Acc, seen: seq<CsvRow>) {
    && acc.total == SumVendas(seen)
    && acc.vendas.Keys == Products(seen) && acc.estoque.Keys == Products(seen)
    && (forall p :: p in acc.vendas ==> acc.vendas[p] == SumVendasOf(seen, p))
    && (forall p :: p in acc.estoque ==> acc.estoque[p] == LastEstoque(seen, p))
    && acc.latest == MaxTimestamp(seen)
  }

  /** Folds one more row into the aggregates. */
  function Fold(acc: Acc, row: CsvRow): Acc {
    var total := acc.total + Vendas(row);
    var latest :=
      if row.timestamp.None? then acc.latest
      else if acc.latest.None? then row.timestamp
      else Some(Max(acc.latest.value, row.timestamp.value));
    if row.produto.None? then Acc(total, acc.vendas, acc.estoque, latest)
    else
      var p := row.produto.value;
      var prevV := if p in acc.vendas then acc.vendas[p] else 0;
      var prevE := if p in acc.estoque then acc.estoque[p] else None;
      Acc(total,
          acc.vendas[p := prevV + Vendas(row)],
          acc.estoque[p := if row.estoque.Some? then row.estoque else prevE],
          latest)
  }

  lemma FoldStep(acc: Acc, seen: seq<CsvRow>, row: CsvRow)
    requires Holds(acc, seen)
    ensures Holds(Fold(acc, row), seen + [row])
  {
    var next := seen + [row];
    var a := Fold(acc, row);
    SnocWhole(seen, row);
    assert a.vendas.Keys == Products(next) && a.estoque.Keys == Products(next);
    forall p | p in a.vendas
      ensures a.vendas[p] == SumVendasOf(next, p) && a.estoque[p] == LastEstoque(next, p)
    {
      FoldAt(acc, seen, row, p);
    }
  }

  /** The folded entry of one product is its group over one more row. */
  lemma FoldAt(acc: Acc, seen: seq<CsvRow>, row: CsvRow, p: string)
    requires Holds(acc, seen)
    requires p in Products(seen) || row.produto == Some(p)
    ensures var a := Fold(acc, row);
      && p in a.vendas && a.vendas[p] == SumVendasOf(seen + [row], p)
      && p in a.estoque && a.estoque[p] == LastEstoque(seen + [row], p)
  {
    SnocOf(seen, row, p);
    if row.produto == Some(p) {
      if p !in acc.vendas {
        AbsentProduct(seen, p);
      }
    } else {
      assert p in acc.vendas && p in acc.estoque;
    }
  }

  /** One more row adds its sales to the total, its product to the keys and
      its timestamp to the maximum. */
  lemma SnocWhole(seen: seq<CsvRow>, row: CsvRow)
    ensures SumVendas(seen + [row]) == SumVendas(seen) + Vendas(row)
    ensures Products(seen + [row]) == Products(seen) + (if row.produto.Some? then {row.produto.value} else {})
    ensures MaxTimestamp(seen + [row]) ==
      if row.timestamp.None? then MaxTimestamp(seen)
      else if MaxTimestamp(seen).None? then row.timestamp
      else Some(Max(MaxTimestamp(seen).value, row.timestamp.value))
  {
    assert (seen + [row])[..|seen|] == seen;
  }

  /** One more row changes only its own product's group. */
  lemma SnocOf(seen: seq<CsvRow>, row: CsvRow, p: string)
    ensures SumVendasOf(seen + [row], p) == SumVendasOf(seen, p) + (if row.produto == Some(p) then Vendas(row) else 0)
    ensures LastEstoque(seen + [row], p) ==
      if row.produto == Some(p) && row.estoque.Some? then row.estoque else LastEstoque(seen, p)
  {
    assert (seen + [row])[..|seen|] == seen;
  }

  /** The dictionaries of aggregates that hold are the reference ones. */
  lemma HoldsMaps(acc: Acc, rows: seq<CsvRow>)
    requires Holds(acc, rows)
    ensures acc.vendas == VendasMap(rows)
    ensures acc.estoque == EstoqueMap(rows)
  {
  }

  /** One pass over the rows accumulating every aggregate at once; the
      result is the snapshot the reference aggregates define. */
  method ComputeSnapshot(f: Frame, now: string) returns (s: Snapshot)
    ensures s == Aggregate(f, now)
  {
    var rows := f.rows;
    var acc := Acc(0, map[], map[], None);
    var i := 0;
    while i < |rows|
      invariant 0 <= i <= |rows|
      invariant Holds(acc, rows[..i])
    {
      assert Holds(Fold(acc, rows[i]), rows[..i + 1]) by {
        FoldStep(acc, rows[..i], rows[i]);
        assert rows[..i + 1] == rows[..i] + [rows[i]];
      }
      acc := Fold(acc, rows[i]);
      i := i + 1;
    }
    assert rows[..i] == rows;
    HoldsMaps(acc, rows);
    var vendas := if f.hasProduto && f.hasVendas then acc.vendas else map[];
    var estoque := if f.hasProduto && f.hasEstoque then acc.estoque else map[];
    s := Snapshot(
      if f.hasVendas then Some(acc.total) else None,
      estoque,
      vendas,
      |rows|,
      if f.hasTimestamp then acc.latest else None,
      now);
  }

  // ---------------------------------------------------------------------------
  // The reload gate
  // ---------------------------------------------------------------------------

  /** `range(5)` in the read loop. */
  const ReadAttempts: nat := 5

  datatype ReadOutcome = ReadFailed | ReadOk(frame: Frame)

  /** The CSV file as `_load_if_changed` finds it: its mtime and the outcome
      each successive `pd.read_csv` would have. */
  datatype CsvFile = CsvFile(mtime: int, outcomes: seq<ReadOutcome>)

  /** The frame the retry loop ends with: the first successful read among
      the first five attempts, or None when all five fail (or the outcomes
      run out). */
  function FirstRead(outcomes: seq<ReadOutcome>): (r: Option<Frame>)
    ensures r.None? <==> forall k :: 0 <= k < |outcomes| && k < ReadAttempts ==> outcomes[k].ReadFailed?
    ensures r.Some? ==> exists k :: 0 <= k < |outcomes| && k < ReadAttempts && outcomes[k] == ReadOk(r.value) &&
                                   (forall j :: 0 <= j < k ==> outcomes[j].ReadFailed?)
  {
    Attempt(outcomes, 0)
  }

  function Attempt(outcomes: seq<ReadOutcome>, attempt: nat): (r: Option<Frame>)
    requires attempt <= ReadAttempts
    requires forall k :: 0 <= k < |outcomes| && k < attempt ==> outcomes[k].ReadFailed?
    ensures r.None? <==> forall k :: 0 <= k < |outcomes| && k < ReadAttempts ==> outcomes[k].ReadFailed?
    ensures r.Some? ==> exists k :: 0 <= k < |outcomes| && k < ReadAttempts && outcomes[k] == ReadOk(r.value) &&
                                   (forall j :: 0 <= j < k ==> outcomes[j].ReadFailed?)
    decreases ReadAttempts - attempt
  {
    if attempt == ReadAttempts || attempt >= |outcomes| then None
    else if outcomes[attempt].ReadOk? then Some(outcomes[attempt].frame)
    else Attempt(outcomes, attempt + 1)
  }

  /** The manager's state: `_last_mtime` (0 initially) and `_data`, None for
      the initial empty dictionary. */
  datatype Manager = Manager(lastMtime: int, data: Option<Snapshot>)

  const Initial: Manager := Manager(0, None)

  /** `_load_if_changed(force)`, returning the new state and whether the
      subscribers are notified. A missing file, an unforced call on a file
      no newer than the last load, five failed outcomes and an empty frame all
      return early with nothing changed, and so does an aggregation that
      raises (the outer handler only logs it); otherwise the snapshot is
      replaced, the file's mtime recorded, and the subscribers notified. */
  function LoadIfChanged(m: Manager, force: bool, file: Option<CsvFile>, now: string): (r: (Manager, bool))
    ensures file.None? ==> r == (m, false)
    ensures file.Some? && !force && file.value.mtime <= m.lastMtime ==> r == (m, false)
    ensures file.Some? && FirstRead(file.value.outcomes).None? ==> r == (m, false)
    ensures file.Some? && FirstRead(file.value.outcomes).Some? && |FirstRead(file.value.outcomes).value.rows| == 0 ==>
      r == (m, false)
    ensures file.Some? && FirstRead(file.value.outcomes).Some? && AggregationRaises(FirstRead(file.value.outcomes).value) ==>
      r == (m, false)
    ensures r.1 <==>
      && file.Some?
      && (force || file.value.mtime > m.lastMtime)
      && FirstRead(file.value.outcomes).Some?
      && |FirstRead(file.value.outcomes).value.rows| > 0
      && !AggregationRaises(FirstRead(file.value.outcomes).value)
    ensures r.1 ==>
      && r.0.lastMtime == file.value.mtime
      && r.0.data == Some(Aggregate(FirstRead(file.value.outcomes).value, now))
    ensures !r.1 ==> r.0 == m
  {
    if file.None? then (m, false)
    else if !force && file.value.mtime <= m.lastMtime then (m, false)
    else
      match FirstRead(file.value.outcomes)
      case None => (m, false)
      case Some(f) =>
        if |f.rows| == 0 || AggregationRaises(f) then (m, false)
        else (Manager(file.value.mtime, Some(Aggregate(f, now))), true)
  }

  /** `get_snapshot`: the stored snapshot (the empty dictionary before the
      first successful load). */
  function GetSnapshot(m: Manager): Option<Snapshot> {
    m.data
  }

  /** After a load that changed the snapshot, an unforced call on the same
      unmodified file changes nothing, whatever its outcomes would yield. */
  lemma RepeatIsNoOp(m: Manager, force: bool, file: CsvFile, outcomes2: seq<ReadOutcome>, now: string, now2: string)
    requires LoadIfChanged(m, force, Some(file), now).1
    ensures var m1 := LoadIfChanged(m, force, Some(file), now).0;
      LoadIfChanged(m1, false, Some(file.(outcomes := outcomes2)), now2) == (m1, false)
  {
  }

  /** A file whose timestamps do not parse is never loaded: whatever calls
      follow (forced or not), each reads it again and fails the same way,
      the recorded mtime stays below the file's, and no subscriber hears of
      it. */
  lemma {:induction false} UnparsableTimestampsNeverLoad(m: Manager, file: CsvFile, calls: seq<LoadCall>)
    requires file.mtime > m.lastMtime
    requires FirstRead(file.outcomes).Some? && AggregationRaises(FirstRead(file.outcomes).value)
    requires forall k :: 0 <= k < |calls| ==> calls[k].file == Some(file)
    ensures forall k :: 0 <= k < |calls| ==> !LoadIfChanged(m, calls[k].force, Some(file), calls[k].now).1
    ensures Loads(m, calls) == m
    decreases |calls|
  {
    if |calls| > 0 {
      UnparsableTimestampsNeverLoad(m, file, calls[1..]);
      assert forall k :: 1 <= k < |calls| ==> calls[k] == calls[1..][k - 1];
    }
  }

  /** One call of the poll loop (or of the watchdog callback). */
  datatype LoadCall = LoadCall(force: bool, file: Option<CsvFile>, now: string)

  function Loads(m: Manager, calls: seq<LoadCall>): Manager
    decreases |calls|
  {
    if |calls| == 0 then m
    else Loads(LoadIfChanged(m, calls[0].force, calls[0].file, calls[0].now).0, calls[1..])
  }

  predicate Unforced(calls: seq<LoadCall>) {
    forall k :: 0 <= k < |calls| ==> !calls[k].force
  }

  /** Without forcing, `_last_mtime` never decreases, and whatever snapshot
      is held after a sequence of calls was either held before or was
      aggregated from a file strictly newer than the mtime at the start. */
  lemma {:induction false} UnforcedLoadsAreMonotone(m: Manager, calls: seq<LoadCall>)
    requires Unforced(calls)
    ensures Loads(m, calls).lastMtime >= m.lastMtime
    ensures Loads(m, calls) == m || Loads(m, calls).lastMtime > m.lastMtime
    decreases |calls|
  {
    if |calls| > 0 {
      var m1 := LoadIfChanged(m, calls[0].force, calls[0].file, calls[0].now).0;
      UnforcedLoadsAreMonotone(m1, calls[1..]);
    }
  }

  // ---------------------------------------------------------------------------
  // Notification
  // ---------------------------------------------------------------------------

  /** A subscribed callback; `fails` says whether calling it raises. */
  datatype Subscriber = Subscriber(id: nat, fails: bool)

  function CountFailing(subs: seq<Subscriber>): nat
    decreases |subs|
  {
    if |subs| == 0 then 0
    else CountFailing(subs[..|subs| - 1]) + (if subs[|subs| - 1].fails then 1 else 0)
  }

  /** `_notify`: every subscriber, in subscription order, is called once
      with the snapshot; a raising callback costs one warning and the loop
      goes on. */
  method Notify(subs: seq<Subscriber>, snap: Option<Snapshot>) returns (calls: seq<(nat, Option<Snapshot>)>, warnings: nat)
    ensures |calls| == |subs|
    ensures forall i :: 0 <= i < |subs| ==> calls[i] == (subs[i].id, snap)
    ensures warnings == CountFailing(subs)
  {
    calls := [];
    warnings := 0;
    var i := 0;
    while i < |subs|
      invariant 0 <= i <= |subs|
      invariant |calls| == i
      invariant forall k :: 0 <= k < i ==> calls[k] == (subs[k].id, snap)
      invariant warnings == CountFailing(subs[..i])
    {
      assert subs[..i + 1][..i] == subs[..i];
      calls := calls + [(subs[i].id, snap)];
      if subs[i].fails {
        warnings := warnings + 1;
      }
      i := i + 1;
    }
    assert subs[..i] == subs;
  }

  /** One `_load_if_changed` with its notification: subscribers are called
      exactly when the snapshot was replaced, each once, with the new
      snapshot. */
  method Reload(m: Manager, subs: seq<Subscriber>, force: bool, file: Option<CsvFile>, now: string)
    returns (m1: Manager, calls: seq<(nat, Option<Snapshot>)>)
    ensures m1 == LoadIfChanged(m, force, file, now).0
    ensures !LoadIfChanged(m, force, file, now).1 ==> calls == []
    ensures LoadIfChanged(m, force, file, now).1 ==>
      |calls| == |subs| && forall i :: 0 <= i < |subs| ==> calls[i] == (subs[i].id, GetSnapshot(m1))
  {
    var changed;
    m1, changed := LoadIfChanged(m, force, file, now).0, LoadIfChanged(m, force, file, now).1;
    if changed {
      var warnings;
      calls, warnings := Notify(subs, GetSnapshot(m1));
    } else {
      calls := [];
    }
  }
}
