/** The screenshot data generator of src/create_demo_screenshot.py:
    `gerar_dados_screenshot` writes 25 five-minute steps ending now, one
    row per product each, where sales drift by a random step in [-3, 8]
    (never below 0) and stock drifts by a random step in [-2, 1] less the
    positive part of the sales step (never below 10).

    The wall clock and the two `random.randint` draws of every row are
    parameters; times are whole minutes. */
module Screenshot {
  import opened Common
  import opened Stock
  import opened BatchData

  const Produtos: seq<string> :=
    ["Smartphone Pro Max", "Notebook Gaming", "Tablet Ultra", "Smartwatch Elite", "Fones Bluetooth"]

  const VendasBase: map<string, int> :=
    map["Smartphone Pro Max" := 45, "Notebook Gaming" := 28, "Tablet Ultra" := 35,
        "Smartwatch Elite" := 52, "Fones Bluetooth" := 68]

  const EstoqueBase: map<string, int> :=
    map["Smartphone Pro Max" := 85, "Notebook Gaming" := 42, "Tablet Ultra" := 67,
        "Smartwatch Elite" := 93, "Fones Bluetooth" := 156]

  const Passos: nat := 25
  const Intervalo: int := 5

  /** The stock written never drops below this floor. */
  const EstoqueMinimo: int := 10

  /** The two draws of one row: `variacao_vendas` and `variacao_estoque`. */
  datatype Variation = Variation(vendas: int, estoque: int)

  predicate ValidDraws(draws: seq<Variation>) {
    forall k :: 0 <= k < |draws| ==> -3 <= draws[k].vendas <= 8 && -2 <= draws[k].estoque <= 1
  }

  /** The slots of the run: step i at `agora - 5 * (24 - i)`. */
  function Slots(agora: int): (s: seq<Slot>)
    ensures |s| == Passos * |Produtos|
  {
    Schedule(agora - (Passos - 1) * Intervalo, Intervalo, Passos, Produtos)
  }

  /** The sales figure of `p` after `rows`: its last row's, else its base. */
  function VendasOf(rows: seq<StockRow>, p: string): int
    decreases |rows|
  {
    if |rows| == 0 then (if p in VendasBase then VendasBase[p] else 0)
    else if rows[|rows| - 1].produto == p then rows[|rows| - 1].vendas
    else VendasOf(rows[..|rows| - 1], p)
  }

  /** The stock of `p` after `rows`: its last row's, else its base. */
  function EstoqueOf(rows: seq<StockRow>, p: string): int {
    StockOf(EstoqueBase, 0, rows, p)
  }

  /** The row a slot produces after `prev`. */
  function NextRow(prev: seq<StockRow>, slot: Slot, d: Variation): StockRow {
    var p := slot.1;
    StockRow(slot.0, p, Max(0, VendasOf(prev, p) + d.vendas),
      Max(EstoqueMinimo, EstoqueOf(prev, p) + d.estoque - Max(0, d.vendas)))
  }

  /** Row k is the row slot k produces, drawing `draws[k]`, after the rows
      before it. */
  predicate Follows(rows: seq<StockRow>, slots: seq<Slot>, draws: seq<Variation>)
    requires |rows| <= |slots| && |rows| <= |draws|
  {
    forall k :: 0 <= k < |rows| ==> rows[k] == NextRow(rows[..k], slots[k], draws[k])
  }

  /** Every slot of a schedule names a product of its list. */
  lemma {:induction false} ScheduleProducts(inicio: int, intervalo: int, passos: nat, ps: seq<string>)
    ensures forall k :: 0 <= k < passos * |ps| ==> Schedule(inicio, intervalo, passos, ps)[k].1 in ps
    decreases passos
  {
    if passos > 0 {
      ScheduleProducts(inicio, intervalo, passos - 1, ps);
    }
  }

  lemma VendasOfSnoc(rows: seq<StockRow>, row: StockRow, p: string)
    ensures VendasOf(rows + [row], p) == if row.produto == p then row.vendas else VendasOf(rows, p)
  {
    assert (rows + [row])[..|rows|] == rows;
  }

  /** `gerar_dados_screenshot`: the 125 rows, computed with the two running
      dictionaries of the source, are the rows of the recurrence. */
  method GerarDadosScreenshot(agora: int, draws: seq<Variation>) returns (rows: seq<StockRow>)
    requires |draws| == Passos * |Produtos|
    requires ValidDraws(draws)
    ensures |rows| == Passos * |Produtos|
    ensures Follows(rows, Slots(agora), draws)
    ensures forall k :: 0 <= k < |rows| ==> rows[k].vendas >= 0 && rows[k].estoque >= EstoqueMinimo
    ensures forall k :: 0 <= k < |rows| ==>
      var prev := EstoqueOf(rows[..k], rows[k].produto);
      Max(EstoqueMinimo, prev - 10) <= rows[k].estoque <= Max(EstoqueMinimo, prev + 1)
  {
    var slots := Slots(agora);
    ScheduleProducts(agora - (Passos - 1) * Intervalo, Intervalo, Passos, Produtos);
    rows := RunSlots(slots, draws);
    ScreenshotBounds(rows, slots, draws);
  }

  /** The loop of `gerar_dados_screenshot` over a schedule of the listed
      products, keeping the running sales and stock in two dictionaries. */
  method RunSlots(slots: seq<Slot>, draws: seq<Variation>) returns (rows: seq<StockRow>)
    requires |slots| <= |draws|
    requires forall k :: 0 <= k < |slots| ==> slots[k].1 in Produtos
    ensures |rows| == |slots|
    ensures Follows(rows, slots, draws)
  {
    var vendas := VendasBase;
    var estoque := EstoqueBase;
    rows := [];
    var i := 0;
    while i < |slots|
      invariant 0 <= i <= |slots| && |rows| == i
      invariant Follows(rows, slots, draws)
      invariant Tracks(vendas, estoque, rows)
    {
      var slot := slots[i];
      var p := slot.1;
      var d := draws[i];
      var v := Max(0, vendas[p] + d.vendas);
      var e := Max(EstoqueMinimo, estoque[p] + d.estoque - Max(0, d.vendas));
      var row := StockRow(slot.0, p, v, e);
      Extend(rows, slots, draws, row);
      TracksStep(vendas, estoque, rows, row);
      vendas := vendas[p := v];
      estoque := estoque[p := e];
      rows := rows + [row];
      i := i + 1;
    }
  }

  /** The two running dictionaries hold every product's current figures. */
  predicate Tracks(vendas: map<string, int>, estoque: map<string, int>, rows: seq<StockRow>) {
    forall p :: p in Produtos ==>
      p in vendas && vendas[p] == VendasOf(rows, p) && p in estoque && estoque[p] == EstoqueOf(rows, p)
  }

  lemma TracksStep(vendas: map<string, int>, estoque: map<string, int>, rows: seq<StockRow>, row: StockRow)
    requires Tracks(vendas, estoque, rows)
    ensures Tracks(vendas[row.produto := row.vendas], estoque[row.produto := row.estoque], rows + [row])
  {
    forall q | q in Produtos
      ensures VendasOf(rows + [row], q) == vendas[row.produto := row.vendas][q]
      ensures EstoqueOf(rows + [row], q) == estoque[row.produto := row.estoque][q]
    {
      VendasOfSnoc(rows, row, q);
      StockOfSnoc(EstoqueBase, 0, rows, row, q);
    }
  }

  /** Appending the row the next slot produces keeps the recurrence. */
  lemma Extend(rows: seq<StockRow>, slots: seq<Slot>, draws: seq<Variation>, row: StockRow)
    requires |rows| < |slots| && |rows| < |draws|
    requires Follows(rows, slots, draws)
    requires row == NextRow(rows, slots[|rows|], draws[|rows|])
    ensures Follows(rows + [row], slots, draws)
  {
    var all := rows + [row];
    forall k | 0 <= k < |all|
      ensures all[k] == NextRow(all[..k], slots[k], draws[k])
    {
      assert all[..k] == rows[..k] || k == |rows|;
      if k == |rows| {
        assert all[..k] == rows;
      }
    }
  }

  /** The bounds the generated data keeps: sales never negative, stock never
      below 10; each row moves a product's sales by -3 to +8 (clamped at 0)
      and its stock up by at most 1 and down by at most 10 (clamped at 10). */
  lemma ScreenshotBounds(rows: seq<StockRow>, slots: seq<Slot>, draws: seq<Variation>)
    requires |rows| <= |slots| && |rows| <= |draws|
    requires ValidDraws(draws)
    requires Follows(rows, slots, draws)
    ensures forall k :: 0 <= k < |rows| ==> rows[k].vendas >= 0 && rows[k].estoque >= EstoqueMinimo
    ensures forall k :: 0 <= k < |rows| ==>
      var prev := VendasOf(rows[..k], rows[k].produto);
      Max(0, prev - 3) <= rows[k].vendas <= Max(0, prev + 8)
    ensures forall k :: 0 <= k < |rows| ==>
      var prev := EstoqueOf(rows[..k], rows[k].produto);
      Max(EstoqueMinimo, prev - 10) <= rows[k].estoque <= Max(EstoqueMinimo, prev + 1)
  {
  }

  /** The run's layout: step i's rows hold the five products in order at
      `agora - 5 * (24 - i)`, so the period shown runs from two hours ago to
      now. */
  lemma ScreenshotLayout(agora: int, rows: seq<StockRow>, draws: seq<Variation>)
    requires |draws| == Passos * |Produtos| && |rows| == Passos * |Produtos|
    requires Follows(rows, Slots(agora), draws)
    ensures forall i, j :: 0 <= i < Passos && 0 <= j < |Produtos| ==>
      Pos(i, |Produtos|, j) < |rows| &&
      rows[Pos(i, |Produtos|, j)].timestamp == agora - Intervalo * (Passos - 1 - i) &&
      rows[Pos(i, |Produtos|, j)].produto == Produtos[j]
    ensures rows[0].timestamp == agora - 120 && rows[|rows| - 1].timestamp == agora
  {
    var inicio := agora - (Passos - 1) * Intervalo;
    forall i, j | 0 <= i < Passos && 0 <= j < |Produtos|
      ensures Pos(i, |Produtos|, j) < |rows|
      ensures rows[Pos(i, |Produtos|, j)].timestamp == agora - Intervalo * (Passos - 1 - i)
      ensures rows[Pos(i, |Produtos|, j)].produto == Produtos[j]
    {
      ScheduleAt(inicio, Intervalo, Passos, Produtos, i, j);
    }
    ScheduleAt(inicio, Intervalo, Passos, Produtos, 0, 0);
    ScheduleAt(inicio, Intervalo, Passos, Produtos, Passos - 1, |Produtos| - 1);
  }

  function SumVendas(rows: seq<StockRow>): int
    decreases |rows|
  {
    if |rows| == 0 then 0 else SumVendas(rows[..|rows| - 1]) + rows[|rows| - 1].vendas
  }

  /** The current sales of the listed products, added up. */
  function SumCurrent(rows: seq<StockRow>, ps: seq<string>): int
    decreases |ps|
  {
    if |ps| == 0 then 0 else SumCurrent(rows, ps[..|ps| - 1]) + VendasOf(rows, ps[|ps| - 1])
  }

  lemma ProdutosDistinct()
    ensures forall i, j :: 0 <= i < j < |Produtos| ==> Produtos[i] != Produtos[j]
  {
    forall i, j | 0 <= i < j < |Produtos|
      ensures Produtos[i] != Produtos[j]
    {
      assert Produtos[i][5] != Produtos[j][5];
    }
  }

  /** The "total vendas atual" the script reports, the sales of the last
      five rows, is the sum of every product's current sales. */
  lemma CurrentTotal(agora: int, rows: seq<StockRow>, draws: seq<Variation>)
    requires |draws| == Passos * |Produtos| && |rows| == Passos * |Produtos|
    requires Follows(rows, Slots(agora), draws)
    ensures SumVendas(rows[|rows| - 5..]) == SumCurrent(rows, Produtos)
  {
    ScreenshotLayout(agora, rows, draws);
    ProdutosDistinct();
    var base := (Passos - 1) * |Produtos|;
    forall j | 0 <= j < |Produtos|
      ensures VendasOf(rows, Produtos[j]) == rows[base + j].vendas
    {
      assert Pos(Passos - 1, |Produtos|, j) == base + j;
      LastVendas(rows, base + j);
    }
    TailSums(rows, base);
  }

  /** A row with no later row of its product holds the product's current sales. */
  lemma {:induction false} LastVendas(rows: seq<StockRow>, k: nat)
    requires k < |rows|
    requires forall i :: k < i < |rows| ==> rows[i].produto != rows[k].produto
    ensures VendasOf(rows, rows[k].produto) == rows[k].vendas
    decreases |rows|
  {
    if k < |rows| - 1 {
      var init := rows[..|rows| - 1];
      assert init[k] == rows[k];
      assert forall i :: k < i < |init| ==> init[i] == rows[i];
      LastVendas(init, k);
    }
  }

  /** The last step's five rows, one per product in order, add up to the
      products' current sales. */
  lemma TailSums(rows: seq<StockRow>, base: nat)
    requires base + |Produtos| == |rows|
    requires forall j :: 0 <= j < |Produtos| ==> VendasOf(rows, Produtos[j]) == rows[base + j].vendas
    ensures SumVendas(rows[base..]) == SumCurrent(rows, Produtos)
  {
    TailSumsPrefix(rows, base, |Produtos|);
    assert rows[base..base + |Produtos|] == rows[base..];
    assert Produtos[..|Produtos|] == Produtos;
  }

  lemma {:induction false} TailSumsPrefix(rows: seq<StockRow>, base: nat, m: nat)
    requires base + |Produtos| == |rows| && m <= |Produtos|
    requires forall j :: 0 <= j < |Produtos| ==> VendasOf(rows, Produtos[j]) == rows[base + j].vendas
    ensures SumVendas(rows[base..base + m]) == SumCurrent(rows, Produtos[..m])
    decreases m
  {
    if m > 0 {
      TailSumsPrefix(rows, base, m - 1);
      assert rows[base..base + m][..m - 1] == rows[base..base + m - 1];
      assert Produtos[..m][..m - 1] == Produtos[..m - 1];
    }
  }
}
