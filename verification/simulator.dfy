/** The near-real-time simulator of update_simulator.py: it recovers each
    product's stock from the CSV (`ler_estoques_existentes`), then appends
    one row per tick (`main`, `append_linha`) for a random product, selling
    1 to 8 units.

    The CSV is seen twice. Read, it is the sequence of rows `csv.DictReader`
    yields (None for a file that does not exist; a read that fails midway
    keeps the rows read so far, which is the same as a shorter file).
    Written, it is a sequence of lines, the header and data lines. The
    random choices, sales and clock readings are parameters, as are the
    ticks: the endless loop is modelled by its first n iterations. */
module Simulator {
  import opened Common
  import opened Stock
  import opened PyText

  const Produtos: seq<string> := ["Produto A", "Produto B", "Produto C", "Produto D"]

  /** The stock a product has before any row mentions it. */
  const StartStock: int := 100

  const MinVendas: int := 1
  const MaxVendas: int := 8

  // ---------------------------------------------------------------------------
  // Reading the stocks back
  // ---------------------------------------------------------------------------

  /** A row as `csv.DictReader` yields it: its `produto` and `estoque`
      values, None where the column is missing or the line too short. */
  datatype DictRow = DictRow(produto: Option<string>, estoque: Option<string>)

  /** `int(row.get('estoque', '') or 0)`: a missing or empty value counts as
      0; text that is not an integer raises (None). */
  function RowStock(row: DictRow): Option<int> {
    if row.estoque.None? || row.estoque.value == "" then Some(0) else IntOf(row.estoque.value)
  }

  /** A row updates the dictionary when its stock parses and its product is
      a non-empty string. */
  predicate Updates(row: DictRow) {
    RowStock(row).Some? && row.produto.Some? && row.produto.value != ""
  }

  /** The stock the last updating row for `p` states. */
  function LastStated(rows: seq<DictRow>, p: string): Option<int>
    decreases |rows|
  {
    if |rows| == 0 then None
    else
      var last := rows[|rows| - 1];
      if Updates(last) && last.produto.value == p then RowStock(last)
      else LastStated(rows[..|rows| - 1], p)
  }

  const Defaults: map<string, int> := map p | p in Produtos :: StartStock

  /** The loop of `ler_estoques_existentes` over the rows: last one wins,
      and products outside the fixed list are added too. */
  function ReadStocks(rows: seq<DictRow>): (m: map<string, int>)
    ensures forall p :: p in m <==> p in Produtos || LastStated(rows, p).Some?
    ensures forall p :: p in m ==> m[p] == LastStated(rows, p).GetOr(StartStock)
    decreases |rows|
  {
    if |rows| == 0 then Defaults
    else
      var last := rows[|rows| - 1];
      var m := ReadStocks(rows[..|rows| - 1]);
      if Updates(last) then m[last.produto.value := RowStock(last).value] else m
  }

  lemma ReadStocksSnoc(rows: seq<DictRow>, row: DictRow)
    ensures ReadStocks(rows + [row]) ==
      if Updates(row) then ReadStocks(rows)[row.produto.value := RowStock(row).value] else ReadStocks(rows)
  {
    assert (rows + [row])[..|rows|] == rows;
  }

  /** `ler_estoques_existentes`: 100 for each fixed product when the file
      does not exist, the stocks the rows state otherwise. */
  function LerEstoques(file: Option<seq<DictRow>>): (m: map<string, int>)
    ensures forall p :: p in Produtos ==> p in m
    ensures file.None? ==> m == Defaults
    ensures file.Some? ==> forall p :: p in m <==> p in Produtos || LastStated(file.value, p).Some?
    ensures file.Some? ==> forall p :: p in m ==> m[p] == LastStated(file.value, p).GetOr(StartStock)
  {
    if file.None? then Defaults else ReadStocks(file.value)
  }

  // ---------------------------------------------------------------------------
  // Writing rows
  // ---------------------------------------------------------------------------

  /** A line of the CSV as written. */
  datatype Line = Header | Data(row: StockRow)

  /** `append_linha`: the header first when the file did not exist, then the
      row. The file exists afterwards. */
  function AppendLinha(file: Option<seq<Line>>, row: StockRow): (r: seq<Line>)
    ensures |r| == (if file.None? then 2 else |file.value| + 1)
    ensures r[|r| - 1] == Data(row)
    ensures file.Some? ==> r[..|r| - 1] == file.value
  {
    (if file.None? then [Header] else file.value) + [Data(row)]
  }

  function AppendAll(file: Option<seq<Line>>, rows: seq<StockRow>): Option<seq<Line>>
    decreases |rows|
  {
    if |rows| == 0 then file
    else AppendAll(Some(AppendLinha(file, rows[0])), rows[1..])
  }

  function CountHeaders(lines: seq<Line>): nat
    decreases |lines|
  {
    if |lines| == 0 then 0
    else CountHeaders(lines[..|lines| - 1]) + (if lines[|lines| - 1].Header? then 1 else 0)
  }

  function DataLines(rows: seq<StockRow>): (lines: seq<Line>)
    ensures |lines| == |rows|
  {
    seq(|rows|, k requires 0 <= k < |rows| => Data(rows[k]))
  }

  lemma {:induction false} CountHeadersAppend(a: seq<Line>, b: seq<Line>)
    ensures CountHeaders(a + b) == CountHeaders(a) + CountHeaders(b)
    decreases |b|
  {
    if |b| > 0 {
      assert (a + b)[..|a + b| - 1] == a + b[..|b| - 1];
      CountHeadersAppend(a, b[..|b| - 1]);
    } else {
      assert a + b == a;
    }
  }

  lemma {:induction false} NoHeaderInData(rows: seq<StockRow>)
    ensures CountHeaders(DataLines(rows)) == 0
    decreases |rows|
  {
    if |rows| > 0 {
      assert DataLines(rows)[..|rows| - 1] == DataLines(rows[..|rows| - 1]);
      NoHeaderInData(rows[..|rows| - 1]);
    }
  }

  /** The header is written only when the file did not exist: appending to
      an existing file adds the data lines and nothing else, and a file the
      simulator creates holds exactly one header, on its first line. */
  lemma {:induction false} HeaderOnce(file: Option<seq<Line>>, rows: seq<StockRow>)
    ensures file.Some? ==> AppendAll(file, rows) == Some(file.value + DataLines(rows))
    ensures file.None? && |rows| > 0 ==> AppendAll(file, rows) == Some([Header] + DataLines(rows))
    ensures file.None? && |rows| > 0 ==> CountHeaders(AppendAll(file, rows).value) == 1
    decreases |rows|
  {
    if |rows| > 0 {
      var f1 := AppendLinha(file, rows[0]);
      HeaderOnce(Some(f1), rows[1..]);
      assert DataLines(rows) == [Data(rows[0])] + DataLines(rows[1..]);
      if file.None? {
        assert f1 == [Header, Data(rows[0])];
        assert [Header] + DataLines(rows) == f1 + DataLines(rows[1..]);
        CountHeadersAppend([Header], DataLines(rows));
        NoHeaderInData(rows);
        assert CountHeaders([Header]) == 1 by {
          assert [Header][..0] == [];
        }
      } else {
        assert file.value + DataLines(rows) == f1 + DataLines(rows[1..]);
      }
    } else {
      if file.Some? {
        assert file.value + DataLines(rows) == file.value;
      }
    }
  }

  // ---------------------------------------------------------------------------
  // The simulation loop
  // ---------------------------------------------------------------------------

  /** One tick's randomness and clock: `random.choice(PRODUTOS)` as an
      index, `random.randint(1, 8)`, and the time written. */
  datatype Tick = Tick(choice: nat, vendas: int, timestamp: int)

  predicate ValidTicks(ticks: seq<Tick>) {
    forall k :: 0 <= k < |ticks| ==>
      ticks[k].choice < |Produtos| && MinVendas <= ticks[k].vendas <= MaxVendas
  }

  function TickSlots(ticks: seq<Tick>): (s: seq<Slot>)
    requires ValidTicks(ticks)
    ensures |s| == |ticks|
    ensures forall k :: 0 <= k < |ticks| ==> s[k] == (ticks[k].timestamp, Produtos[ticks[k].choice])
  {
    seq(|ticks|, k requires 0 <= k < |ticks| => (ticks[k].timestamp, Produtos[ticks[k].choice]))
  }

  function TickSales(ticks: seq<Tick>): (s: seq<int>)
    ensures |s| == |ticks|
    ensures forall k :: 0 <= k < |ticks| ==> s[k] == ticks[k].vendas
  {
    seq(|ticks|, k requires 0 <= k < |ticks| => ticks[k].vendas)
  }

  /** `main` for as many ticks as given: each tick lowers the chosen
      product's stock to `max(0, stock - vendas)`, reading 100 for a product
      the dictionary lacks, and appends the row. The rows are those of the
      stock recurrence, and the dictionary ends holding the stock of every
      product. */
  method Simulate(estoque0: map<string, int>, file0: Option<seq<Line>>, ticks: seq<Tick>)
    returns (estoque: map<string, int>, rows: seq<StockRow>, file: Option<seq<Line>>)
    requires ValidTicks(ticks)
    ensures rows == Deplete(estoque0, StartStock, TickSlots(ticks), TickSales(ticks))
    ensures estoque == Stocks(estoque0, StartStock, rows)
    ensures file == AppendAll(file0, rows)
  {
    var slots := TickSlots(ticks);
    var sales := TickSales(ticks);
    estoque, rows, file := estoque0, [], file0;
    var i := 0;
    while i < |ticks|
      invariant 0 <= i <= |ticks|
      invariant rows == Deplete(estoque0, StartStock, slots[..i], sales)
      invariant estoque == Stocks(estoque0, StartStock, rows)
      invariant file == AppendAll(file0, rows)
    {
      var slot := slots[i];
      var prev := if slot.1 in estoque then estoque[slot.1] else StartStock;
      var row := StockRow(slot.0, slot.1, sales[i], Max(0, prev - sales[i]));
      TickRow(estoque0, estoque, rows, slots, sales, i, prev);
      AppendAllSnoc(file0, rows, row);
      StocksSnoc(estoque0, StartStock, rows, row);
      estoque := estoque[slot.1 := row.estoque];
      rows := rows + [row];
      file := Some(AppendLinha(file, row));
      i := i + 1;
    }
    assert slots[..i] == slots;
  }

  /** The row a tick writes, reading the dictionary, is the row the stock
      recurrence produces for its slot. */
  lemma TickRow(estoque0: map<string, int>, estoque: map<string, int>, rows: seq<StockRow>, slots: seq<Slot>, sales: seq<int>, i: nat, prev: int)
    requires |slots| == |sales| && i < |slots|
    requires rows == Deplete(estoque0, StartStock, slots[..i], sales)
    requires estoque == Stocks(estoque0, StartStock, rows)
    requires prev == if slots[i].1 in estoque then estoque[slots[i].1] else StartStock
    ensures Deplete(estoque0, StartStock, slots[..i + 1], sales) ==
      rows + [StockRow(slots[i].0, slots[i].1, sales[i], Max(0, prev - sales[i]))]
  {
    var next := NextRow(estoque0, StartStock, rows, slots[i], sales[i]);
    assert next == StockRow(slots[i].0, slots[i].1, sales[i], Max(0, prev - sales[i])) by {
      StocksGet(estoque0, StartStock, rows, estoque, slots[i].1);
    }
    assert Deplete(estoque0, StartStock, slots[..i + 1], sales) == rows + [next] by {
      DepleteNext(estoque0, StartStock, slots, sales, i);
    }
  }

  lemma {:induction false} AppendAllSnoc(file: Option<seq<Line>>, rows: seq<StockRow>, row: StockRow)
    ensures AppendAll(file, rows + [row]) == Some(AppendLinha(AppendAll(file, rows), row))
    decreases |rows|
  {
    if |rows| > 0 {
      assert (rows + [row])[1..] == rows[1..] + [row];
      AppendAllSnoc(Some(AppendLinha(file, rows[0])), rows[1..], row);
    }
  }

  /** The simulator's stock promise: each tick sells 1 to 8 units, the stock
      written is never negative, never above what the product started
      with (or 0), and never rises along one product's rows. */
  lemma SimulatedStock(estoque0: map<string, int>, ticks: seq<Tick>)
    requires ValidTicks(ticks)
    ensures
      var rows := Deplete(estoque0, StartStock, TickSlots(ticks), TickSales(ticks));
      && (forall k :: 0 <= k < |rows| ==> MinVendas <= rows[k].vendas <= MaxVendas && rows[k].produto in Produtos)
      && (forall k :: 0 <= k < |rows| ==> 0 <= rows[k].estoque <= Max(0, Initial(estoque0, StartStock, rows[k].produto)))
      && (forall j, k :: 0 <= j < k < |rows| && rows[j].produto == rows[k].produto ==>
            rows[k].estoque <= rows[j].estoque)
  {
    var slots := TickSlots(ticks);
    var sales := TickSales(ticks);
    var rows := Deplete(estoque0, StartStock, slots, sales);
    TickFields(estoque0, ticks, rows);
    assert Recurrence(estoque0, StartStock, rows) by {
      DepleteRecurrence(estoque0, StartStock, slots, sales);
    }
    StockNeverRises(estoque0, StartStock, rows);
  }

  /** Every row sells what its tick drew, of the product it chose. */
  lemma TickFields(estoque0: map<string, int>, ticks: seq<Tick>, rows: seq<StockRow>)
    requires ValidTicks(ticks) && rows == Deplete(estoque0, StartStock, TickSlots(ticks), TickSales(ticks))
    ensures forall k :: 0 <= k < |rows| ==> MinVendas <= rows[k].vendas <= MaxVendas && rows[k].produto in Produtos
    ensures forall k :: 0 <= k < |rows| ==> rows[k].vendas >= 0
  {
    var slots := TickSlots(ticks);
    var sales := TickSales(ticks);
    DepleteFields(estoque0, StartStock, slots, sales);
  }

  // ---------------------------------------------------------------------------
  // Restarting
  // ---------------------------------------------------------------------------

  /** The row `csv.DictReader` reads back from a written data line. */
  function AsDict(row: StockRow): DictRow {
    DictRow(Some(row.produto), Some(ShowInt(row.estoque)))
  }

  function AsDicts(rows: seq<StockRow>): (ds: seq<DictRow>)
    ensures |ds| == |rows|
  {
    seq(|rows|, k requires 0 <= k < |rows| => AsDict(rows[k]))
  }

  /** A restarted simulator continues where the last one stopped: reading
      back a file to which rows were appended gives the stocks the
      simulator held after writing them. */
  lemma {:induction false} RestartContinues(prior: seq<DictRow>, rows: seq<StockRow>)
    requires forall k :: 0 <= k < |rows| ==> rows[k].produto != ""
    ensures ReadStocks(prior + AsDicts(rows)) == Stocks(ReadStocks(prior), StartStock, rows)
    decreases |rows|
  {
    if |rows| == 0 {
      assert prior + AsDicts(rows) == prior;
    } else {
      var n := |rows| - 1;
      var init := rows[..n];
      var r := rows[n];
      var before := ReadStocks(prior + AsDicts(init));
      assert before == Stocks(ReadStocks(prior), StartStock, init) by {
        RestartContinues(prior, init);
      }
      ReadBackLast(prior, rows);
      assert Stocks(ReadStocks(prior), StartStock, rows) ==
          Stocks(ReadStocks(prior), StartStock, init)[r.produto := r.estoque];
    }
  }

  /** Reading back one more written line updates its product's entry. */
  lemma ReadBackLast(prior: seq<DictRow>, rows: seq<StockRow>)
    requires |rows| > 0 && rows[|rows| - 1].produto != ""
    ensures var r := rows[|rows| - 1];
      ReadStocks(prior + AsDicts(rows)) == ReadStocks(prior + AsDicts(rows[..|rows| - 1]))[r.produto := r.estoque]
  {
    var r := rows[|rows| - 1];
    var pre := prior + AsDicts(rows[..|rows| - 1]);
    assert prior + AsDicts(rows) == pre + [AsDict(r)] by {
      AsDictsSnoc(rows);
    }
    AsDictUpdates(r);
    ReadStocksSnoc(pre, AsDict(r));
  }

  lemma AsDictsSnoc(rows: seq<StockRow>)
    requires |rows| > 0
    ensures AsDicts(rows) == AsDicts(rows[..|rows| - 1]) + [AsDict(rows[|rows| - 1])]
  {
    var a := AsDicts(rows);
    var b := AsDicts(rows[..|rows| - 1]) + [AsDict(rows[|rows| - 1])];
    assert |a| == |b|;
    forall k | 0 <= k < |a|
      ensures a[k] == b[k]
    {
      if k < |rows| - 1 {
        assert rows[..|rows| - 1][k] == rows[k];
      }
    }
  }

  /** A written data line with a named product reads back as the row's
      product and stock. */
  lemma AsDictUpdates(row: StockRow)
    requires row.produto != ""
    ensures Updates(AsDict(row)) && RowStock(AsDict(row)) == Some(row.estoque)
  {
    IntOfShowInt(row.estoque);
    if row.estoque >= 0 {
      assert |ShowNat(row.estoque)| > 0;
    }
  }
}
