/** The live-demo generator of src/quick_demo_data.py: each call of
    `add_demo_point` recovers the five demo products' stocks from the last
    ten CSV rows, then appends one row per product at the current minute,
    selling 0 to 8 units of each.

    The recovery as written walks the window newest-first and lets every
    row overwrite the dictionary, so the OLDEST usable row wins, while the
    comment above the loop says it takes each product's latest stock.
    `RecoverAsWritten` models the code as it is and `OldestRowWins`
    exhibits the difference; `Recover` walks the window oldest-first, so
    the newest row wins.

    The file is read through `csv.DictReader`, whose first line names the
    columns, but the script appends bare data lines and never a header. A
    file the script itself creates therefore has a data line where the
    header should be, and no later call finds a `produto` column in it.
    `AddDemoPointToFile` is one call as written; `AddDemoPointFixed` uses
    the intended recovery and writes the header when it creates the file. */
module QuickDemo {
  import opened Common
  import opened Stock
  import opened PyText

  const Produtos: seq<string> := ["Produto A", "Produto B", "Produto C", "Produto D", "Produto E"]

  /** The stocks assumed when the file gives nothing better. */
  const Defaults: map<string, int> :=
    map["Produto A" := 180, "Produto B" := 190, "Produto C" := 185, "Produto D" := 195, "Produto E" := 188]

  /** How many of the file's last rows are consulted. */
  const WindowSize: nat := 10

  /** `random.randint(0, 8)`: the most one call sells of a product. */
  const MaxVendas: int := 8

  /** One draw per demo product, each within `randint`'s bounds. */
  predicate DrawsInRange(draws: seq<int>) {
    |draws| == |Produtos| && forall k :: 0 <= k < |draws| ==> 0 <= draws[k] <= MaxVendas
  }

  /** The `estoque` value of a row: no such column (`get` falls back to the
      current stock), None for a line too short (`int(None)` raises
      TypeError), or the text read. */
  datatype Field = Absent | Null | Text(s: string)

  /** A row as `csv.DictReader` yields it. */
  datatype DemoRow = DemoRow(produto: Option<string>, estoque: Field)

  /** `int(row.get('estoque', current))`, None when it raises. */
  function Conversion(f: Field, current: int): Option<int> {
    match f
    case Absent => Some(current)
    case Null => None
    case Text(s) => IntOf(s)
  }

  /** One iteration of the recovery loop: a row for a product already in
      the dictionary whose stock converts overwrites that product's entry. */
  function ApplyRow(m: map<string, int>, row: DemoRow): (r: map<string, int>)
    ensures forall q :: q in r <==> q in m
  {
    if row.produto.Some? && row.produto.value in m then
      match Conversion(row.estoque, m[row.produto.value])
      case Some(v) => m[row.produto.value := v]
      case None => m
    else m
  }

  /** The stock a row sets for `p`: None when it is for another product,
      has no `estoque` column (the entry stays as it was) or its value does
      not convert. */
  function Setting(row: DemoRow, p: string): Option<int> {
    if row.produto == Some(p) && row.estoque.Text? then IntOf(row.estoque.s) else None
  }

  /** The loop changes a product's entry only through a row that sets it. */
  lemma ApplyRowAt(m: map<string, int>, row: DemoRow, p: string)
    requires p in m
    ensures ApplyRow(m, row)[p] == Setting(row, p).GetOr(m[p])
  {
  }

  /** What each row of `w` sets for `p`. */
  function Settings(w: seq<DemoRow>, p: string): (s: seq<Option<int>>)
    ensures |s| == |w|
    ensures forall k :: 0 <= k < |w| ==> s[k] == Setting(w[k], p)
  {
    seq(|w|, k requires 0 <= k < |w| => Setting(w[k], p))
  }

  lemma SettingsConcat(a: seq<DemoRow>, b: seq<DemoRow>, p: string)
    ensures Settings(a + b, p) == Settings(a, p) + Settings(b, p)
  {
  }

  /** `rows[-10:]`. */
  function Window(rows: seq<DemoRow>): (w: seq<DemoRow>)
    ensures |w| == Min(WindowSize, |rows|)
    ensures forall k :: 0 <= k < |w| ==> w[k] == rows[|rows| - |w| + k]
  {
    if |rows| <= WindowSize then rows else rows[|rows| - WindowSize..]
  }

  // ---------------------------------------------------------------------------
  // The first and the last value present
  // ---------------------------------------------------------------------------

  /** The last value present in `s`. */
  function LastSome(s: seq<Option<int>>): Option<int>
    decreases |s|
  {
    if |s| == 0 then None
    else if s[|s| - 1].Some? then s[|s| - 1]
    else LastSome(s[..|s| - 1])
  }

  /** The first value present in `s`. */
  function FirstSome(s: seq<Option<int>>): Option<int>
    decreases |s|
  {
    if |s| == 0 then None
    else if s[0].Some? then s[0]
    else FirstSome(s[1..])
  }

  /** There is no last value exactly when no value is present. */
  lemma {:induction false} LastSomeNone(s: seq<Option<int>>)
    ensures LastSome(s).None? <==> forall k :: 0 <= k < |s| ==> s[k].None?
    decreases |s|
  {
    if |s| > 0 {
      var n := |s| - 1;
      LastSomeNone(s[..n]);
      assert forall i :: 0 <= i < n ==> s[..n][i] == s[i];
    }
  }

  /** The last value present: position j holds it and nothing after j is
      present. */
  lemma {:induction false} LastSomeIsLast(s: seq<Option<int>>) returns (j: nat)
    requires LastSome(s).Some?
    ensures j < |s| && s[j] == LastSome(s)
    ensures forall k :: j < k < |s| ==> s[k].None?
    decreases |s|
  {
    var n := |s| - 1;
    if s[n].Some? {
      j := n;
    } else {
      var init := s[..n];
      j := LastSomeIsLast(init);
      assert s[j] == init[j];
      assert forall k :: j < k < n ==> s[k] == init[k];
    }
  }

  /** There is no first value exactly when no value is present. */
  lemma {:induction false} FirstSomeNone(s: seq<Option<int>>)
    ensures FirstSome(s).None? <==> forall k :: 0 <= k < |s| ==> s[k].None?
    decreases |s|
  {
    if |s| > 0 {
      FirstSomeNone(s[1..]);
      assert forall i :: 1 <= i < |s| ==> s[1..][i - 1] == s[i];
    }
  }

  /** The first value present: position j holds it and nothing before j is
      present. */
  lemma {:induction false} FirstSomeIsFirst(s: seq<Option<int>>) returns (j: nat)
    requires FirstSome(s).Some?
    ensures j < |s| && s[j] == FirstSome(s)
    ensures forall k :: 0 <= k < j ==> s[k].None?
    decreases |s|
  {
    if s[0].Some? {
      j := 0;
    } else {
      var tail := s[1..];
      var i := FirstSomeIsFirst(tail);
      j := i + 1;
      assert s[j] == tail[i];
      assert forall k :: 1 <= k < j ==> s[k] == tail[k - 1];
    }
  }

  /** A later part with a value present decides the last value. */
  lemma {:induction false} LastSomeAppend(a: seq<Option<int>>, b: seq<Option<int>>)
    requires LastSome(b).Some?
    ensures LastSome(a + b) == LastSome(b)
    decreases |b|
  {
    var n := |b| - 1;
    assert (a + b)[|a + b| - 1] == b[n];
    if b[n].None? {
      assert (a + b)[..|a + b| - 1] == a + b[..n];
      LastSomeAppend(a, b[..n]);
    }
  }

  /** The first value of a concatenation is that of its first part, or else
      that of its second. */
  lemma {:induction false} FirstSomeConcat(a: seq<Option<int>>, b: seq<Option<int>>)
    ensures FirstSome(a + b) == if FirstSome(a).Some? then FirstSome(a) else FirstSome(b)
    decreases |a|
  {
    if |a| == 0 {
      assert a + b == b;
    } else {
      assert (a + b)[0] == a[0];
      if a[0].None? {
        assert (a + b)[1..] == a[1..] + b;
        FirstSomeConcat(a[1..], b);
      }
    }
  }

  // ---------------------------------------------------------------------------
  // The recovery loop, as written and as intended
  // ---------------------------------------------------------------------------

  /** `for row in reversed(window)`: the newest row is applied first and
      every older row after it. */
  function FoldNewestFirst(m: map<string, int>, w: seq<DemoRow>): map<string, int>
    decreases |w|
  {
    if |w| == 0 then m
    else FoldNewestFirst(ApplyRow(m, w[|w| - 1]), w[..|w| - 1])
  }

  /** `for row in window`: the rows in file order. */
  function FoldOldestFirst(m: map<string, int>, w: seq<DemoRow>): map<string, int>
    decreases |w|
  {
    if |w| == 0 then m
    else ApplyRow(FoldOldestFirst(m, w[..|w| - 1]), w[|w| - 1])
  }

  /** Walking the window newest-first leaves each product at the stock its
      OLDEST setting row states. */
  lemma {:induction false} FoldNewestFirstKeepsOldest(m: map<string, int>, w: seq<DemoRow>)
    ensures forall q :: q in FoldNewestFirst(m, w) <==> q in m
    ensures forall p :: p in m ==> FoldNewestFirst(m, w)[p] == FirstSome(Settings(w, p)).GetOr(m[p])
    decreases |w|
  {
    if |w| > 0 {
      var n := |w| - 1;
      var m1 := ApplyRow(m, w[n]);
      FoldNewestFirstKeepsOldest(m1, w[..n]);
      forall p | p in m
        ensures FoldNewestFirst(m, w)[p] == FirstSome(Settings(w, p)).GetOr(m[p])
      {
        ApplyRowAt(m, w[n], p);
        FirstSomeSnoc(w, p);
      }
    }
  }

  /** The first setting of a window is that of all but its last row, or
      else the last row's. */
  lemma FirstSomeSnoc(w: seq<DemoRow>, p: string)
    requires |w| > 0
    ensures var n := |w| - 1;
      FirstSome(Settings(w, p)) ==
        if FirstSome(Settings(w[..n], p)).Some? then FirstSome(Settings(w[..n], p)) else Setting(w[n], p)
  {
    var n := |w| - 1;
    assert Settings(w, p) == Settings(w[..n], p) + Settings([w[n]], p) by {
      assert w == w[..n] + [w[n]];
      SettingsConcat(w[..n], [w[n]], p);
    }
    FirstSomeConcat(Settings(w[..n], p), Settings([w[n]], p));
    assert FirstSome(Settings([w[n]], p)) == Setting(w[n], p) by {
      assert Settings([w[n]], p)[1..] == [];
    }
  }

  /** Walking the window oldest-first leaves each product at the stock its
      NEWEST setting row states. */
  lemma {:induction false} FoldOldestFirstKeepsNewest(m: map<string, int>, w: seq<DemoRow>)
    ensures forall q :: q in FoldOldestFirst(m, w) <==> q in m
    ensures forall p :: p in m ==> FoldOldestFirst(m, w)[p] == LastSome(Settings(w, p)).GetOr(m[p])
    decreases |w|
  {
    if |w| > 0 {
      var n := |w| - 1;
      FoldOldestFirstKeepsNewest(m, w[..n]);
      forall p | p in m
        ensures FoldOldestFirst(m, w)[p] == LastSome(Settings(w, p)).GetOr(m[p])
      {
        ApplyRowAt(FoldOldestFirst(m, w[..n]), w[n], p);
        assert Settings(w, p)[..n] == Settings(w[..n], p);
      }
    }
  }

  /** The stocks `add_demo_point` recovers, as written: the defaults when the
      file cannot be read, else the window folded newest-first. */
  function RecoverAsWritten(file: Option<seq<DemoRow>>): (m: map<string, int>)
    ensures forall p :: p in m <==> p in Defaults
    ensures file.None? ==> m == Defaults
    ensures file.Some? ==> forall p :: p in Defaults ==>
      m[p] == FirstSome(Settings(Window(file.value), p)).GetOr(Defaults[p])
  {
    if file.None? then Defaults
    else
      FoldNewestFirstKeepsOldest(Defaults, Window(file.value));
      FoldNewestFirst(Defaults, Window(file.value))
  }

  /** The stocks recovered as the loop's comment intends: each product's
      newest usable row in the window. */
  function Recover(file: Option<seq<DemoRow>>): (m: map<string, int>)
    ensures forall p :: p in m <==> p in Defaults
    ensures file.None? ==> m == Defaults
    ensures file.Some? ==> forall p :: p in Defaults ==>
      m[p] == LastSome(Settings(Window(file.value), p)).GetOr(Defaults[p])
  {
    if file.None? then Defaults
    else
      FoldOldestFirstKeepsNewest(Defaults, Window(file.value));
      FoldOldestFirst(Defaults, Window(file.value))
  }

  /** Two rows for one demo product stating different stocks, the newer
      last: the code as written recovers the older stock, the intended
      recovery the newer. */
  lemma OldestRowWins(p: string, a: int, b: int)
    requires p in Defaults
    ensures var rows := [DemoRow(Some(p), Text(ShowInt(a))), DemoRow(Some(p), Text(ShowInt(b)))];
      RecoverAsWritten(Some(rows))[p] == a && Recover(Some(rows))[p] == b
  {
    var rows := [DemoRow(Some(p), Text(ShowInt(a))), DemoRow(Some(p), Text(ShowInt(b)))];
    assert Window(rows) == rows;
    var s := Settings(rows, p);
    assert s[0] == Some(a) by {
      SettingShown(p, a);
    }
    assert s[1] == Some(b) by {
      SettingShown(p, b);
    }
    assert FirstSome(s) == Some(a);
    assert LastSome(s) == Some(b);
  }

  /** A written row reads back as setting its own product's stock. */
  lemma SettingShown(p: string, a: int)
    ensures Setting(DemoRow(Some(p), Text(ShowInt(a))), p) == Some(a)
  {
    IntOfShowInt(a);
  }

  /** A file whose two rows state 150 and then 140 for Produto A: the code
      as written recovers 150. */
  lemma StockStepsBack()
    ensures var rows := [DemoRow(Some("Produto A"), Text(ShowInt(150))), DemoRow(Some("Produto A"), Text(ShowInt(140)))];
      RecoverAsWritten(Some(rows))["Produto A"] == 150 && Recover(Some(rows))["Produto A"] == 140
  {
    OldestRowWins("Produto A", 150, 140);
  }

  // ---------------------------------------------------------------------------
  // Appending a point
  // ---------------------------------------------------------------------------

  /** The five slots of one point: every product at the same minute. */
  function PointSlots(timestamp: int): (s: seq<Slot>)
    ensures |s| == |Produtos|
    ensures forall k :: 0 <= k < |s| ==> s[k] == (timestamp, Produtos[k])
  {
    seq(|Produtos|, k requires 0 <= k < |Produtos| => (timestamp, Produtos[k]))
  }

  lemma ProdutosDistinct()
    ensures forall i, j :: 0 <= i < j < |Produtos| ==> Produtos[i] != Produtos[j]
  {
    forall i, j | 0 <= i < j < |Produtos|
      ensures Produtos[i] != Produtos[j]
    {
      assert Produtos[i][8] != Produtos[j][8];
    }
  }

  /** The rows `add_demo_point` writes after recovering `estoque`, selling
      `draws[k]` of product k, with the dictionary it holds afterwards. */
  function AddDemoPoint(estoque: map<string, int>, timestamp: int, draws: seq<int>): (r: (seq<StockRow>, map<string, int>))
    requires DrawsInRange(draws)
    ensures |r.0| == |Produtos|
    ensures forall k :: 0 <= k < |r.0| ==> 0 <= r.0[k].vendas <= MaxVendas
    ensures forall p :: p in r.1 <==> p in estoque || p in Produtos
  {
    var rows := Deplete(estoque, 0, PointSlots(timestamp), draws);
    DepleteFields(estoque, 0, PointSlots(timestamp), draws);
    assert forall p :: p in Produtos ==> exists k :: 0 <= k < |rows| && rows[k].produto == p;
    (rows, Stocks(estoque, 0, rows))
  }

  /** Every product of the point gets one row, in order, at the point's
      minute, selling its draw and lowering its recovered stock by it
      (never below 0); the dictionary ends at those stocks. */
  lemma DemoPointRows(estoque: map<string, int>, timestamp: int, draws: seq<int>)
    requires DrawsInRange(draws)
    requires forall p :: p in Produtos ==> p in estoque
    ensures var (rows, after) := AddDemoPoint(estoque, timestamp, draws);
      forall k :: 0 <= k < |Produtos| ==>
        && rows[k] == StockRow(timestamp, Produtos[k], draws[k], Max(0, estoque[Produtos[k]] - draws[k]))
        && after[Produtos[k]] == rows[k].estoque
  {
    var slots := PointSlots(timestamp);
    var rows := Deplete(estoque, 0, slots, draws);
    DepleteFields(estoque, 0, slots, draws);
    DepleteRecurrence(estoque, 0, slots, draws);
    ProdutosDistinct();
    forall k | 0 <= k < |Produtos|
      ensures rows[k] == StockRow(timestamp, Produtos[k], draws[k], Max(0, estoque[Produtos[k]] - draws[k]))
      ensures StockOf(estoque, 0, rows, Produtos[k]) == rows[k].estoque
    {
      PointRowAt(estoque, rows, k);
    }
  }

  /** Row k of a point sells from the recovered stock of product k, and is
      that product's last row. */
  lemma PointRowAt(estoque: map<string, int>, rows: seq<StockRow>, k: nat)
    requires |rows| == |Produtos| && k < |rows| && Produtos[k] in estoque
    requires forall i :: 0 <= i < |rows| ==> rows[i].produto == Produtos[i]
    requires forall i, j :: 0 <= i < j < |Produtos| ==> Produtos[i] != Produtos[j]
    requires Recurrence(estoque, 0, rows)
    ensures rows[k].estoque == Max(0, estoque[Produtos[k]] - rows[k].vendas)
    ensures StockOf(estoque, 0, rows, Produtos[k]) == rows[k].estoque
  {
    assert StockOf(estoque, 0, rows[..k], Produtos[k]) == estoque[Produtos[k]] by {
      StockOfUnnamed(estoque, 0, rows[..k], Produtos[k]);
    }
    LastRowFor(estoque, rows, k);
  }

  /** In a point, row k is the last row for product k. */
  lemma LastRowFor(estoque: map<string, int>, rows: seq<StockRow>, k: nat)
    requires |rows| == |Produtos| && k < |rows|
    requires forall i :: 0 <= i < |rows| ==> rows[i].produto == Produtos[i]
    requires forall i, j :: 0 <= i < j < |Produtos| ==> Produtos[i] != Produtos[j]
    ensures StockOf(estoque, 0, rows, Produtos[k]) == rows[k].estoque
  {
    var after := rows[k + 1..];
    assert rows == rows[..k + 1] + after;
    forall i | 0 <= i < |after|
      ensures after[i].produto != Produtos[k]
    {
      assert after[i] == rows[k + 1 + i];
    }
    StockOfSkip(estoque, rows[..k + 1], after, Produtos[k]);
    assert rows[..k + 1][k] == rows[k];
  }

  /** Rows for other products do not change a product's stock. */
  lemma {:induction false} StockOfSkip(start: map<string, int>, a: seq<StockRow>, b: seq<StockRow>, p: string)
    requires forall i :: 0 <= i < |b| ==> b[i].produto != p
    ensures StockOf(start, 0, a + b, p) == StockOf(start, 0, a, p)
    decreases |b|
  {
    if |b| > 0 {
      assert (a + b)[..|a + b| - 1] == a + b[..|b| - 1];
      StockOfSkip(start, a, b[..|b| - 1], p);
    } else {
      assert a + b == a;
    }
  }

  /** The row `csv.DictReader` reads back from a written line. */
  function AsDemoRow(row: StockRow): DemoRow {
    DemoRow(Some(row.produto), Text(ShowInt(row.estoque)))
  }

  function AsDemoRows(rows: seq<StockRow>): (ds: seq<DemoRow>)
    ensures |ds| == |rows|
  {
    seq(|rows|, k requires 0 <= k < |rows| => AsDemoRow(rows[k]))
  }

  /** With the intended recovery, the records read back after a point give
      each product the stock that point wrote, whatever records precede it. */
  lemma PointsContinue(prior: seq<DemoRow>, estoque: map<string, int>, timestamp: int, draws: seq<int>)
    requires DrawsInRange(draws)
    requires forall p :: p in Produtos ==> p in estoque
    ensures var (rows, after) := AddDemoPoint(estoque, timestamp, draws);
      forall p :: p in Produtos ==> Recover(Some(prior + AsDemoRows(rows)))[p] == after[p]
  {
    var (rows, after) := AddDemoPoint(estoque, timestamp, draws);
    DemoPointRows(estoque, timestamp, draws);
    DepleteFields(estoque, 0, PointSlots(timestamp), draws);
    forall p | p in Produtos
      ensures Recover(Some(prior + AsDemoRows(rows)))[p] == after[p]
    {
      var k :| 0 <= k < |Produtos| && Produtos[k] == p;
      RecoverPoint(prior, rows, k);
    }
  }

  /** Once a point is written, the intended recovery gives each product the
      stock of its row in that point. */
  lemma RecoverPoint(prior: seq<DemoRow>, rows: seq<StockRow>, k: nat)
    requires |rows| == |Produtos| && k < |rows|
    requires forall i :: 0 <= i < |rows| ==> rows[i].produto == Produtos[i]
    ensures Recover(Some(prior + AsDemoRows(rows)))[Produtos[k]] == rows[k].estoque
  {
    var p := Produtos[k];
    var written := AsDemoRows(rows);
    var w := Window(prior + written);
    assert LastSome(Settings(w, p)) == Some(rows[k].estoque) by {
      var lead := w[..|w| - |written|];
      assert w == lead + written by {
        WindowEndsWith(prior, written);
      }
      PointSettings(rows, k);
      SettingsConcat(lead, written, p);
      LastSomeAppend(Settings(lead, p), Settings(written, p));
    }
    assert p in Defaults;
  }

  /** The window of a file ends with its last rows, when they fit in it. */
  lemma WindowEndsWith(prior: seq<DemoRow>, last: seq<DemoRow>)
    requires |last| <= WindowSize
    ensures var w := Window(prior + last);
      |last| <= |w| && w == w[..|w| - |last|] + last
  {
    var all := prior + last;
    var w := Window(all);
    var n := |w| - |last|;
    var rhs := w[..n] + last;
    assert |rhs| == |w|;
    forall i | n <= i < |w|
      ensures rhs[i] == w[i]
    {
      assert w[i] == all[|prior| + (i - n)];
    }
    assert forall i :: 0 <= i < n ==> rhs[i] == w[i];
  }

  /** Read back, a point's rows set product k in row k and nowhere else. */
  lemma PointSettings(rows: seq<StockRow>, k: nat)
    requires |rows| == |Produtos| && k < |rows|
    requires forall i :: 0 <= i < |rows| ==> rows[i].produto == Produtos[i]
    ensures LastSome(Settings(AsDemoRows(rows), Produtos[k])) == Some(rows[k].estoque)
    ensures FirstSome(Settings(AsDemoRows(rows), Produtos[k])) == Some(rows[k].estoque)
  {
    var s := Settings(AsDemoRows(rows), Produtos[k]);
    ProdutosDistinct();
    IntOfShowInt(rows[k].estoque);
    assert s[k] == Some(rows[k].estoque);
    assert forall i :: 0 <= i < |s| && i != k ==> s[i].None?;
    LastSomeNone(s);
    var j := LastSomeIsLast(s);
    assert j == k;
    FirstSomeNone(s);
    var j' := FirstSomeIsFirst(s);
    assert j' == k;
  }

  /** As written, once the window holds two points, the next point starts
      from the stocks of the OLDER one. */
  lemma AsWrittenStepsBack(prior: seq<DemoRow>, older: seq<StockRow>, newer: seq<StockRow>)
    requires |older| == |Produtos| && |newer| == |Produtos|
    requires forall i :: 0 <= i < |older| ==> older[i].produto == Produtos[i]
    requires forall i :: 0 <= i < |newer| ==> newer[i].produto == Produtos[i]
    ensures forall k :: 0 <= k < |Produtos| ==>
      RecoverAsWritten(Some(prior + AsDemoRows(older) + AsDemoRows(newer)))[Produtos[k]] == older[k].estoque
  {
    var both := AsDemoRows(older) + AsDemoRows(newer);
    assert prior + AsDemoRows(older) + AsDemoRows(newer) == prior + both;
    assert Window(prior + both) == both by {
      WindowEndsWith(prior, both);
    }
    forall k | 0 <= k < |Produtos|
      ensures RecoverAsWritten(Some(prior + both))[Produtos[k]] == older[k].estoque
    {
      OlderPointFirst(older, newer, k);
      assert Produtos[k] in Defaults;
    }
  }

  /** In two points read back in file order, product k is first set by the
      older point. */
  lemma OlderPointFirst(older: seq<StockRow>, newer: seq<StockRow>, k: nat)
    requires |older| == |Produtos| && |newer| == |Produtos| && k < |Produtos|
    requires forall i :: 0 <= i < |older| ==> older[i].produto == Produtos[i]
    requires forall i :: 0 <= i < |newer| ==> newer[i].produto == Produtos[i]
    ensures FirstSome(Settings(AsDemoRows(older) + AsDemoRows(newer), Produtos[k])) == Some(older[k].estoque)
  {
    var p := Produtos[k];
    PointSettings(older, k);
    SettingsConcat(AsDemoRows(older), AsDemoRows(newer), p);
    FirstSomeConcat(Settings(AsDemoRows(older), p), Settings(AsDemoRows(newer), p));
  }

  // ---------------------------------------------------------------------------
  // The file: read back through its first line, appended to without a header
  // ---------------------------------------------------------------------------

  /** A line of the CSV file, as its fields. */
  type Line = seq<string>

  /** The header the other writers of the file put on its first line. */
  const CsvHeader: Line := ["timestamp", "produto", "vendas", "estoque"]

  /** The value `csv.DictReader` gives key `name` in the record of `line`
      under the column names `header`: no key when no column has that name,
      None (`restval`) when the line is too short, and the later column when
      a name repeats. */
  function Column(header: Line, line: Line, name: string): Field {
    if name !in header then Absent
    else
      var i := LastIndex(header, name);
      if i < |line| then Text(line[i]) else Null
  }

  /** The record of `line` as the recovery loop sees it. */
  function RowOf(header: Line, line: Line): DemoRow {
    var p := Column(header, line, "produto");
    DemoRow(if p.Text? then Some(p.s) else None, Column(header, line, "estoque"))
  }

  /** The records of the lines after the first; blank lines yield none. */
  function Records(header: Line, body: seq<Line>): seq<DemoRow>
    decreases |body|
  {
    if |body| == 0 then []
    else
      var line := body[|body| - 1];
      Records(header, body[..|body| - 1]) + (if |line| == 0 then [] else [RowOf(header, line)])
  }

  /** `list(csv.DictReader(f))`: the first line names the columns. None: the
      file is missing, so the read raises. */
  function ReadFile(file: Option<seq<Line>>): Option<seq<DemoRow>> {
    if file.None? then None
    else if |file.value| == 0 then Some([])
    else Some(Records(file.value[0], file.value[1..]))
  }

  /** `writer.writerow([timestamp_str, produto, vendas, estoque])`. */
  function PointLine(stamp: string, row: StockRow): Line {
    [stamp, row.produto, ShowInt(row.vendas), ShowInt(row.estoque)]
  }

  function PointLines(stamp: string, rows: seq<StockRow>): (ls: seq<Line>)
    ensures |ls| == |rows|
    ensures forall k :: 0 <= k < |rows| ==> ls[k] == PointLine(stamp, rows[k])
  {
    seq(|rows|, k requires 0 <= k < |rows| => PointLine(stamp, rows[k]))
  }

  /** The point for the recovered stocks `estoque`, appended to the lines
      `before`: five lines, one per demo product, each selling its draw from
      that product's recovered stock. */
  function WritePoint(before: seq<Line>, estoque: map<string, int>, timestamp: int, stamp: string, draws: seq<int>)
    : (r: (seq<Line>, seq<StockRow>, map<string, int>))
    requires DrawsInRange(draws)
    requires forall p :: p in Produtos ==> p in estoque
    ensures |r.0| == |before| + |Produtos| && r.0[..|before|] == before
    ensures r.0 == before + PointLines(stamp, r.1)
    ensures forall p :: p in Produtos ==> p in r.2
    ensures forall k :: 0 <= k < |Produtos| ==>
      var s := Max(0, estoque[Produtos[k]] - draws[k]);
      && r.0[|before| + k] == [stamp, Produtos[k], ShowInt(draws[k]), ShowInt(s)]
      && r.2[Produtos[k]] == s
  {
    var (rows, after) := AddDemoPoint(estoque, timestamp, draws);
    DemoPointRows(estoque, timestamp, draws);
    var out := before + PointLines(stamp, rows);
    assert forall k :: 0 <= k < |Produtos| ==> out[|before| + k] == PointLine(stamp, rows[k]);
    (out, rows, after)
  }

  /** One call of `add_demo_point` as written on a file (None: missing) at
      minute `timestamp`, written as `stamp`: the stocks recovered as written,
      then five bare lines appended, the file created if missing. The result
      is the file afterwards, the rows written and the dictionary. */
  function AddDemoPointToFile(file: Option<seq<Line>>, timestamp: int, stamp: string, draws: seq<int>)
    : (r: (seq<Line>, seq<StockRow>, map<string, int>))
    requires DrawsInRange(draws)
    ensures |r.0| == |file.GetOr([])| + |Produtos| && r.0[..|file.GetOr([])|] == file.GetOr([])
    ensures forall p :: p in Produtos ==> p in r.2 && p in RecoverAsWritten(ReadFile(file))
    ensures forall k :: 0 <= k < |Produtos| ==>
      var s := Max(0, RecoverAsWritten(ReadFile(file))[Produtos[k]] - draws[k]);
      && r.0[|file.GetOr([])| + k] == [stamp, Produtos[k], ShowInt(draws[k]), ShowInt(s)]
      && r.2[Produtos[k]] == s
  {
    var estoque := RecoverAsWritten(ReadFile(file));
    ProdutosHaveDefaults();
    WritePoint(file.GetOr([]), estoque, timestamp, stamp, draws)
  }

  /** One call as intended: the newest stocks are recovered, and a missing
      file is created with the header before the point's lines. */
  function AddDemoPointFixed(file: Option<seq<Line>>, timestamp: int, stamp: string, draws: seq<int>)
    : (r: (seq<Line>, seq<StockRow>, map<string, int>))
    requires DrawsInRange(draws)
    ensures |r.0| == |Created(file)| + |Produtos| && r.0[..|Created(file)|] == Created(file)
    ensures forall p :: p in Produtos ==> p in r.2 && p in Recover(ReadFile(file))
    ensures forall k :: 0 <= k < |Produtos| ==>
      var s := Max(0, Recover(ReadFile(file))[Produtos[k]] - draws[k]);
      && r.0[|Created(file)| + k] == [stamp, Produtos[k], ShowInt(draws[k]), ShowInt(s)]
      && r.2[Produtos[k]] == s
  {
    var estoque := Recover(ReadFile(file));
    ProdutosHaveDefaults();
    WritePoint(Created(file), estoque, timestamp, stamp, draws)
  }

  /** The file's lines before the point, the header alone when it is
      created. */
  function Created(file: Option<seq<Line>>): seq<Line> {
    if file.None? then [CsvHeader] else file.value
  }

  lemma ProdutosHaveDefaults()
    ensures forall p :: p in Produtos ==> p in Defaults
  {
  }

  lemma {:induction false} RecordsAppend(header: Line, a: seq<Line>, b: seq<Line>)
    ensures Records(header, a + b) == Records(header, a) + Records(header, b)
    decreases |b|
  {
    if |b| == 0 {
      assert a + b == a;
    } else {
      assert (a + b)[..|a + b| - 1] == a + b[..|b| - 1];
      RecordsAppend(header, a, b[..|b| - 1]);
    }
  }

  /** Under the standard header, a point's lines read back as its rows. */
  lemma {:induction false} HeaderReadsPoint(stamp: string, rows: seq<StockRow>)
    ensures Records(CsvHeader, PointLines(stamp, rows)) == AsDemoRows(rows)
    decreases |rows|
  {
    if |rows| > 0 {
      var n := |rows| - 1;
      assert PointLines(stamp, rows)[..n] == PointLines(stamp, rows[..n]);
      HeaderReadsPoint(stamp, rows[..n]);
      assert LastIndex(CsvHeader, "produto") == 1;
      assert LastIndex(CsvHeader, "estoque") == 3;
      assert RowOf(CsvHeader, PointLine(stamp, rows[n])) == AsDemoRow(rows[n]);
      assert AsDemoRows(rows) == AsDemoRows(rows[..n]) + [AsDemoRow(rows[n])];
    }
  }

  /** Under a first line without a `produto` column, no record names a
      product. */
  lemma {:induction false} RecordsUnnamed(header: Line, body: seq<Line>)
    requires "produto" !in header
    ensures forall k :: 0 <= k < |Records(header, body)| ==> Records(header, body)[k].produto.None?
    decreases |body|
  {
    if |body| > 0 {
      RecordsUnnamed(header, body[..|body| - 1]);
    }
  }

  /** A file whose first line has no `produto` column gives the defaults to
      both recoveries, whatever follows that line. */
  lemma HeaderlessFileKeepsDefaults(lines: seq<Line>)
    requires |lines| > 0 && "produto" !in lines[0]
    ensures RecoverAsWritten(ReadFile(Some(lines))) == Defaults
    ensures Recover(ReadFile(Some(lines))) == Defaults
  {
    var rows := ReadFile(Some(lines)).value;
    RecordsUnnamed(lines[0], lines[1..]);
    var w := Window(rows);
    forall p | p in Defaults
      ensures FirstSome(Settings(w, p)).None? && LastSome(Settings(w, p)).None?
    {
      FirstSomeNone(Settings(w, p));
      LastSomeNone(Settings(w, p));
    }
    var a := RecoverAsWritten(ReadFile(Some(lines)));
    var b := Recover(ReadFile(Some(lines)));
    assert forall p :: p in a ==> a[p] == Defaults[p];
    assert forall p :: p in b ==> b[p] == Defaults[p];
  }

  /** `str(n)` ends in a digit, so it never spells a column name. */
  lemma ShowIntEndsInDigit(n: int)
    ensures |ShowInt(n)| > 0 && IsDigit(ShowInt(n)[|ShowInt(n)| - 1])
  {
    var digits := ShowNat(if n < 0 then -n else n);
    assert ShowInt(n)[|ShowInt(n)| - 1] == digits[|digits| - 1];
  }

  /** As written, starting without the file: the first call creates it with
      a data line where the header belongs, and from then on every call,
      whatever was appended in between, recovers the defaults. */
  lemma MissingFileKeepsDefaults(timestamp: int, stamp: string, draws: seq<int>, later: seq<Line>)
    requires DrawsInRange(draws) && stamp != "produto"
    ensures var created := AddDemoPointToFile(None, timestamp, stamp, draws).0;
      && created[0] != CsvHeader
      && RecoverAsWritten(ReadFile(Some(created + later))) == Defaults
      && Recover(ReadFile(Some(created + later))) == Defaults
  {
    var created := AddDemoPointToFile(None, timestamp, stamp, draws).0;
    var s := Max(0, RecoverAsWritten(ReadFile(None))[Produtos[0]] - draws[0]);
    assert created[0] == [stamp, Produtos[0], ShowInt(draws[0]), ShowInt(s)];
    NoProdutoColumn(stamp, Produtos[0], draws[0], s);
    assert (created + later)[0] == created[0];
    HeaderlessFileKeepsDefaults(created + later);
  }

  /** A written data line never carries a column named `produto`. */
  lemma NoProdutoColumn(stamp: string, p: string, v: int, e: int)
    requires stamp != "produto" && p == Produtos[0]
    ensures "produto" !in [stamp, p, ShowInt(v), ShowInt(e)]
    ensures [stamp, p, ShowInt(v), ShowInt(e)] != CsvHeader
  {
    assert p[0] != "produto"[0];
    ShowIntEndsInDigit(v);
    ShowIntEndsInDigit(e);
  }

  /** Under the standard header, the file after a point reads back as the
      records before it followed by the point's rows. */
  lemma ReadBackAfterPoint(before: seq<Line>, stamp: string, rows: seq<StockRow>)
    requires |before| > 0 && before[0] == CsvHeader
    ensures var out := before + PointLines(stamp, rows);
      && out[0] == CsvHeader
      && ReadFile(Some(out)) == Some(Records(CsvHeader, before[1..]) + AsDemoRows(rows))
  {
    var out := before + PointLines(stamp, rows);
    assert out[1..] == before[1..] + PointLines(stamp, rows);
    RecordsAppend(CsvHeader, before[1..], PointLines(stamp, rows));
    HeaderReadsPoint(stamp, rows);
  }

  /** Corrected, the calls chain: starting from a missing file or one under
      the standard header, the file keeps that header and the next call
      recovers exactly the stocks this call wrote. */
  lemma FixedCallsContinue(file: Option<seq<Line>>, timestamp: int, stamp: string, draws: seq<int>)
    requires DrawsInRange(draws)
    requires file.Some? ==> |file.value| > 0 && file.value[0] == CsvHeader
    ensures var (out, rows, after) := AddDemoPointFixed(file, timestamp, stamp, draws);
      && out[0] == CsvHeader
      && forall p :: p in Produtos ==> Recover(ReadFile(Some(out)))[p] == after[p]
  {
    var estoque := Recover(ReadFile(file));
    ProdutosHaveDefaults();
    var point := AddDemoPoint(estoque, timestamp, draws);
    var out := Created(file) + PointLines(stamp, point.0);
    assert AddDemoPointFixed(file, timestamp, stamp, draws) == (out, point.0, point.1);
    ReadBackAfterPoint(Created(file), stamp, point.0);
    PointsContinue(Records(CsvHeader, Created(file)[1..]), estoque, timestamp, draws);
  }
}
