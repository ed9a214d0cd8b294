/** The clamped stock recurrence shared by the data generators
    (generate_batch_data.py, update_simulator.py, src/quick_demo_data.py):
    rows are produced for a schedule of (timestamp, product) slots, each
    selling a drawn amount and lowering that product's stock to
    `max(0, stock - sold)`. Stock is kept per product name, so a name that
    appears twice in a schedule continues from its own previous row. The
    random draws are a parameter. */
module Stock {
  import opened Common

  /** One CSV line the generators write: timestamp, product, sales, stock. */
  datatype StockRow = StockRow(timestamp: int, produto: string, vendas: int, estoque: int)

  /** A (timestamp, product) slot of a schedule. */
  type Slot = (int, string)

  /** A product's starting stock: its entry in `start`, else `dflt`. */
  function Initial(start: map<string, int>, dflt: int, p: string): int {
    if p in start then start[p] else dflt
  }

  /** The stock of `p` after `rows`: the last row for `p`, else its start. */
  function StockOf(start: map<string, int>, dflt: int, rows: seq<StockRow>, p: string): int
    decreases |rows|
  {
    if |rows| == 0 then Initial(start, dflt, p)
    else if rows[|rows| - 1].produto == p then rows[|rows| - 1].estoque
    else StockOf(start, dflt, rows[..|rows| - 1], p)
  }

  /** The row a slot produces after `prev`, selling `sold`. */
  function NextRow(start: map<string, int>, dflt: int, prev: seq<StockRow>, slot: Slot, sold: int): StockRow {
    StockRow(slot.0, slot.1, sold, Max(0, StockOf(start, dflt, prev, slot.1) - sold))
  }

  /** The rows produced for `slots`, slot k selling `draws[k]`. */
  function Deplete(start: map<string, int>, dflt: int, slots: seq<Slot>, draws: seq<int>): (rows: seq<StockRow>)
    requires |slots| <= |draws|
    ensures |rows| == |slots|
    decreases |slots|
  {
    if |slots| == 0 then []
    else
      var n := |slots| - 1;
      var prev := Deplete(start, dflt, slots[..n], draws);
      prev + [NextRow(start, dflt, prev, slots[n], draws[n])]
  }

  /** Row k carries slot k's timestamp and product and sells draw k. */
  lemma {:induction false} DepleteFields(start: map<string, int>, dflt: int, slots: seq<Slot>, draws: seq<int>)
    requires |slots| <= |draws|
    ensures var rows := Deplete(start, dflt, slots, draws);
      forall k :: 0 <= k < |slots| ==>
        rows[k].timestamp == slots[k].0 && rows[k].produto == slots[k].1 && rows[k].vendas == draws[k]
    decreases |slots|
  {
    if |slots| > 0 {
      var n := |slots| - 1;
      DepleteFields(start, dflt, slots[..n], draws);
    }
  }

  /** The rows of a longer schedule extend those of a shorter one. */
  lemma {:induction false} DepletePrefix(start: map<string, int>, dflt: int, slots: seq<Slot>, draws: seq<int>, m: nat)
    requires |slots| <= |draws| && m <= |slots|
    ensures Deplete(start, dflt, slots[..m], draws) == Deplete(start, dflt, slots, draws)[..m]
    decreases |slots|
  {
    if m < |slots| {
      var n := |slots| - 1;
      assert slots[..n][..m] == slots[..m];
      DepletePrefix(start, dflt, slots[..n], draws, m);
    } else {
      assert slots[..m] == slots;
    }
  }

  /** Scheduling one more slot appends the row it produces. */
  lemma DepleteSnoc(start: map<string, int>, dflt: int, slots: seq<Slot>, slot: Slot, draws: seq<int>)
    requires |slots| < |draws|
    ensures Deplete(start, dflt, slots + [slot], draws) ==
      Deplete(start, dflt, slots, draws) + [NextRow(start, dflt, Deplete(start, dflt, slots, draws), slot, draws[|slots|])]
  {
    assert (slots + [slot])[..|slots|] == slots;
  }

  /** Running one more slot of a schedule appends the row it produces. */
  lemma DepleteNext(start: map<string, int>, dflt: int, slots: seq<Slot>, draws: seq<int>, i: nat)
    requires |slots| <= |draws| && i < |slots|
    ensures Deplete(start, dflt, slots[..i + 1], draws) ==
      Deplete(start, dflt, slots[..i], draws) + [NextRow(start, dflt, Deplete(start, dflt, slots[..i], draws), slots[i], draws[i])]
  {
    assert slots[..i + 1] == slots[..i] + [slots[i]];
    DepleteSnoc(start, dflt, slots[..i], slots[i], draws);
  }

  /** A dictionary holding the stock of every product of `ps` keeps doing
      so when a row for one of them is appended and its entry updated. */
  lemma StockMapSnoc(start: map<string, int>, dflt: int, ps: seq<string>, stock: map<string, int>, rows: seq<StockRow>, row: StockRow)
    requires forall p :: p in ps ==> p in stock && stock[p] == StockOf(start, dflt, rows, p)
    ensures forall p :: p in ps ==>
      p in stock[row.produto := row.estoque] && stock[row.produto := row.estoque][p] == StockOf(start, dflt, rows + [row], p)
  {
    forall p | p in ps
      ensures stock[row.produto := row.estoque][p] == StockOf(start, dflt, rows + [row], p)
    {
      StockOfSnoc(start, dflt, rows, row, p);
    }
  }

  /** A new row changes the stock of its own product only. */
  lemma StockOfSnoc(start: map<string, int>, dflt: int, rows: seq<StockRow>, row: StockRow, p: string)
    ensures StockOf(start, dflt, rows + [row], p) == if row.produto == p then row.estoque else StockOf(start, dflt, rows, p)
  {
    assert (rows + [row])[..|rows|] == rows;
  }

  /** Every row lowers its product's stock as of the rows before it: the
      stock written is `max(0, previous - sold)`. */
  predicate Recurrence(start: map<string, int>, dflt: int, rows: seq<StockRow>) {
    forall k :: 0 <= k < |rows| ==>
      rows[k].estoque == Max(0, StockOf(start, dflt, rows[..k], rows[k].produto) - rows[k].vendas)
  }

  /** Row k is the row slot k produces after the rows before it. */
  lemma {:induction false} DepleteAt(start: map<string, int>, dflt: int, slots: seq<Slot>, draws: seq<int>, k: nat)
    requires |slots| <= |draws| && k < |slots|
    ensures var rows := Deplete(start, dflt, slots, draws);
      rows[k] == NextRow(start, dflt, rows[..k], slots[k], draws[k])
  {
    var rows := Deplete(start, dflt, slots, draws);
    DepletePrefix(start, dflt, slots, draws, k + 1);
    DepletePrefix(start, dflt, slots, draws, k);
    var upto := slots[..k + 1];
    assert upto[..k] == slots[..k];
    assert rows[..k + 1][k] == rows[k];
  }

  lemma {:induction false} DepleteRecurrence(start: map<string, int>, dflt: int, slots: seq<Slot>, draws: seq<int>)
    requires |slots| <= |draws|
    ensures Recurrence(start, dflt, Deplete(start, dflt, slots, draws))
  {
    var rows := Deplete(start, dflt, slots, draws);
    forall k | 0 <= k < |rows|
      ensures rows[k].estoque == Max(0, StockOf(start, dflt, rows[..k], rows[k].produto) - rows[k].vendas)
    {
      DepleteAt(start, dflt, slots, draws, k);
    }
  }

  predicate NonNegative(draws: seq<int>) {
    forall k :: 0 <= k < |draws| ==> draws[k] >= 0
  }

  /** Under the recurrence with non-negative sales, a product's stock never
      exceeds what it held after any earlier row for it. */
  lemma {:induction false} StockOfBelowEarlier(start: map<string, int>, dflt: int, rows: seq<StockRow>, j: nat, m: nat)
    requires Recurrence(start, dflt, rows)
    requires forall k :: 0 <= k < |rows| ==> rows[k].vendas >= 0
    requires j < m <= |rows|
    ensures StockOf(start, dflt, rows[..m], rows[j].produto) <= rows[j].estoque
    decreases m
  {
    var p := rows[j].produto;
    var pre := rows[..m];
    assert pre[..m - 1] == rows[..m - 1];
    if m - 1 == j {
    } else if rows[m - 1].produto == p {
      StockOfBelowEarlier(start, dflt, rows, j, m - 1);
    } else {
      StockOfBelowEarlier(start, dflt, rows, j, m - 1);
    }
  }

  /** The stock a product starts with bounds all that follows. */
  lemma {:induction false} StockOfBelowStart(start: map<string, int>, dflt: int, rows: seq<StockRow>, p: string, m: nat)
    requires Recurrence(start, dflt, rows)
    requires forall k :: 0 <= k < |rows| ==> rows[k].vendas >= 0
    requires m <= |rows|
    ensures StockOf(start, dflt, rows[..m], p) <= Max(0, Initial(start, dflt, p))
    decreases m
  {
    if m > 0 {
      assert rows[..m][..m - 1] == rows[..m - 1];
      StockOfBelowStart(start, dflt, rows, p, m - 1);
    }
  }

  /** The generators' stock promise: every row's stock is non-negative and
      at most the product's starting stock (or 0), and along the rows of one
      product the stock never rises. */
  lemma {:induction false} StockNeverRises(start: map<string, int>, dflt: int, rows: seq<StockRow>)
    requires Recurrence(start, dflt, rows)
    requires forall k :: 0 <= k < |rows| ==> rows[k].vendas >= 0
    ensures forall k :: 0 <= k < |rows| ==>
      0 <= rows[k].estoque <= Max(0, Initial(start, dflt, rows[k].produto))
    ensures forall j, k :: 0 <= j < k < |rows| && rows[j].produto == rows[k].produto ==>
      rows[k].estoque <= rows[j].estoque
  {
    forall k | 0 <= k < |rows|
      ensures 0 <= rows[k].estoque <= Max(0, Initial(start, dflt, rows[k].produto))
    {
      StockOfBelowStart(start, dflt, rows, rows[k].produto, k);
    }
    forall j, k | 0 <= j < k < |rows| && rows[j].produto == rows[k].produto
      ensures rows[k].estoque <= rows[j].estoque
    {
      StockOfBelowEarlier(start, dflt, rows, j, k);
    }
  }

  /** The stock map after `rows`: every product of `start` and every product
      a row names, at its current stock. */
  function Stocks(start: map<string, int>, dflt: int, rows: seq<StockRow>): (m: map<string, int>)
    ensures forall p :: p in m <==> p in start || exists k :: 0 <= k < |rows| && rows[k].produto == p
    ensures forall p :: p in m ==> m[p] == StockOf(start, dflt, rows, p)
    decreases |rows|
  {
    if |rows| == 0 then start
    else
      var init := rows[..|rows| - 1];
      var last := rows[|rows| - 1];
      assert forall k :: 0 <= k < |init| ==> init[k] == rows[k];
      Stocks(start, dflt, init)[last.produto := last.estoque]
  }

  /** Appending a row updates its own product's entry. */
  lemma StocksSnoc(start: map<string, int>, dflt: int, rows: seq<StockRow>, row: StockRow)
    ensures Stocks(start, dflt, rows + [row]) == Stocks(start, dflt, rows)[row.produto := row.estoque]
  {
    assert (rows + [row])[..|rows|] == rows;
  }

  /** `stock.get(p, dflt)` on the stock map is the stock of `p`. */
  lemma StocksGet(start: map<string, int>, dflt: int, rows: seq<StockRow>, m: map<string, int>, p: string)
    requires m == Stocks(start, dflt, rows)
    ensures (if p in m then m[p] else dflt) == StockOf(start, dflt, rows, p)
  {
    if p !in m {
      StockOfUnnamed(start, dflt, rows, p);
    }
  }

  /** A product no row names keeps its starting stock. */
  lemma {:induction false} StockOfUnnamed(start: map<string, int>, dflt: int, rows: seq<StockRow>, p: string)
    requires forall k :: 0 <= k < |rows| ==> rows[k].produto != p
    ensures StockOf(start, dflt, rows, p) == Initial(start, dflt, p)
    decreases |rows|
  {
    if |rows| > 0 {
      StockOfUnnamed(start, dflt, rows[..|rows| - 1], p);
    }
  }
}
