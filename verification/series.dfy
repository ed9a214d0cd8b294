/** The series builder of `buildCharts` (app.js, app_complete.js): an
    ordered batch of history rows becomes a label axis and, per product, a
    sales series (sum of the matching rows) and a stock series (the last
    matching row's stock, or null).

    The label of a row is `row.timestamp || row.timestamp_str`, but rows are
    grouped by `row.timestamp` alone; a label that only ever came from
    `timestamp_str` therefore finds no rows. A missing timestamp
    (`undefined`) and a JSON `null` are two different labels on the axis, as
    a JS `Set` keeps them apart; `rowByLabel` is a plain object, so its keys
    are the labels converted to strings, and the label `null` shares its key
    with the string "null".

    Products are labels too. The datasets live in plain objects keyed by
    `String(p)`, so two distinct products with one key (`null` and "null")
    share a dataset, placed where the key first appeared and holding the
    series of the product written to it last. */
module Series {
  import opened Common

  /** A timestamp or product field as the browser sees it: absent, JSON
      `null`, or a string. */
  datatype Label = Undefined | Null | Str(s: string)

  /** `String(l)`: the property key an object stores label `l` under. */
  function Key(l: Label): string {
    match l
    case Undefined => "undefined"
    case Null => "null"
    case Str(s) => s
  }

  /** The label is falsy: absent, null or the empty string. */
  predicate Falsy(l: Label) {
    l.Undefined? || l.Null? || (l.Str? && l.s == "")
  }

  datatype HistoryRow = HistoryRow(
    timestamp: Label,
    timestampStr: Label,
    produto: Label,
    vendas: Option<int>,    // None: `Number(vendas)` is NaN
    estoque: Option<int>)   // None: null or undefined

  /** One chart dataset: the property key of its product (the dataset's
      `label`) and its values along the label axis. */
  datatype Dataset<T> = Dataset(produto: string, data: seq<T>)

  datatype SeriesData = SeriesData(
    labels: seq<Label>,
    vendas: seq<Dataset<int>>,
    estoque: seq<Dataset<Option<int>>>)

  /** `row.timestamp || row.timestamp_str`: the empty string is falsy. */
  function LabelOf(r: HistoryRow): Label {
    if Falsy(r.timestamp) then r.timestampStr else r.timestamp
  }

  /** `Number(x.vendas) || 0`. */
  function SalesValue(r: HistoryRow): int {
    r.vendas.GetOr(0)
  }

  // ---------------------------------------------------------------------------
  // Reference definitions: what a cell of each series means
  // ---------------------------------------------------------------------------

  /** Row `r` is stored under label `l`'s key and is of product `p`. */
  predicate Matches(r: HistoryRow, l: Label, p: Label) {
    Key(r.timestamp) == Key(l) && r.produto == p
  }

  /** Total sales of the rows whose timestamp has the key of `l` and whose
      product is `p`. */
  function SalesRef(rows: seq<HistoryRow>, l: Label, p: Label): int
    decreases |rows|
  {
    if |rows| == 0 then 0
    else
      var r := rows[|rows| - 1];
      SalesRef(rows[..|rows| - 1], l, p) + (if Matches(r, l, p) then SalesValue(r) else 0)
  }

  /** Stock of the last row (in arrival order) whose timestamp has the key of
      `l` and whose product is `p`; None when there is none. */
  function StockRef(rows: seq<HistoryRow>, l: Label, p: Label): Option<int>
    decreases |rows|
  {
    if |rows| == 0 then None
    else
      var r := rows[|rows| - 1];
      if Matches(r, l, p) then r.estoque else StockRef(rows[..|rows| - 1], l, p)
  }

  // ---------------------------------------------------------------------------
  // The computation as the scripts perform it
  // ---------------------------------------------------------------------------

  /** The rows of `rows` whose timestamp converts to key `k`, in arrival
      order. */
  function RowsAt(rows: seq<HistoryRow>, k: string): seq<HistoryRow>
    decreases |rows|
  {
    if |rows| == 0 then []
    else
      var r := rows[|rows| - 1];
      RowsAt(rows[..|rows| - 1], k) + (if Key(r.timestamp) == k then [r] else [])
  }

  /** `rowByLabel`: rows pushed, in order, under the key of their own
      timestamp. */
  function GroupByTimestamp(rows: seq<HistoryRow>): (m: map<string, seq<HistoryRow>>)
    ensures forall k :: k in m ==> m[k] == RowsAt(rows, k) && |m[k]| > 0
    ensures forall k :: k !in m ==> RowsAt(rows, k) == []
    decreases |rows|
  {
    if |rows| == 0 then map[]
    else
      var m := GroupByTimestamp(rows[..|rows| - 1]);
      var k := Key(rows[|rows| - 1].timestamp);
      m[k := (if k in m then m[k] else []) + [rows[|rows| - 1]]]
  }

  /** `arr.filter(x => x.produto === p)`. */
  function OfProduct(arr: seq<HistoryRow>, p: Label): seq<HistoryRow>
    decreases |arr|
  {
    if |arr| == 0 then []
    else
      var r := arr[|arr| - 1];
      OfProduct(arr[..|arr| - 1], p) + (if r.produto == p then [r] else [])
  }

  function SumSales(found: seq<HistoryRow>): int
    decreases |found|
  {
    if |found| == 0 then 0 else SumSales(found[..|found| - 1]) + SalesValue(found[|found| - 1])
  }

  /** `rowByLabel[l] || []`. */
  function Lookup(group: map<string, seq<HistoryRow>>, l: Label): seq<HistoryRow> {
    if Key(l) in group then group[Key(l)] else []
  }

  /** The sales cell: the filtered group summed. */
  function SalesCell(group: map<string, seq<HistoryRow>>, l: Label, p: Label): int {
    SumSales(OfProduct(Lookup(group, l), p))
  }

  /** The stock cell: null when nothing matched, else the last match's stock
      (`?? null`). */
  function StockCell(group: map<string, seq<HistoryRow>>, l: Label, p: Label): Option<int> {
    LastStock(OfProduct(Lookup(group, l), p))
  }

  /** `found[found.length - 1]?.estoque ?? null`. */
  function LastStock(found: seq<HistoryRow>): Option<int> {
    if |found| == 0 then None else found[|found| - 1].estoque
  }

  // ---------------------------------------------------------------------------
  // The grouped computation agrees with the reference definitions
  // ---------------------------------------------------------------------------

  lemma {:induction false} SalesCellIsReference(rows: seq<HistoryRow>, l: Label, p: Label)
    ensures SumSales(OfProduct(RowsAt(rows, Key(l)), p)) == SalesRef(rows, l, p)
    decreases |rows|
  {
    if |rows| > 0 {
      SalesCellIsReference(rows[..|rows| - 1], l, p);
      SalesCellStep(rows, l, p);
    }
  }

  /** One more row keeps the sales cell equal to its reference. */
  lemma SalesCellStep(rows: seq<HistoryRow>, l: Label, p: Label)
    requires |rows| > 0
    requires SumSales(OfProduct(RowsAt(rows[..|rows| - 1], Key(l)), p)) == SalesRef(rows[..|rows| - 1], l, p)
    ensures SumSales(OfProduct(RowsAt(rows, Key(l)), p)) == SalesRef(rows, l, p)
  {
    var r := rows[|rows| - 1];
    var a := OfProduct(RowsAt(rows[..|rows| - 1], Key(l)), p);
    var b := if Matches(r, l, p) then [r] else [];
    var tail := if Matches(r, l, p) then SalesValue(r) else 0;
    assert OfProduct(RowsAt(rows, Key(l)), p) == a + b by {
      MatchesStep(rows, l, p);
    }
    assert SumSales(a + b) == SumSales(a) + SumSales(b) by {
      SumSalesAppend(a, b);
    }
    assert SumSales(b) == tail by {
      SumSalesMatch(r, l, p);
    }
    assert SalesRef(rows, l, p) == SalesRef(rows[..|rows| - 1], l, p) + tail;
  }

  lemma SumSalesMatch(r: HistoryRow, l: Label, p: Label)
    ensures SumSales(if Matches(r, l, p) then [r] else []) == if Matches(r, l, p) then SalesValue(r) else 0
  {
    var b := [r];
    assert b[..0] == [];
  }

  /** Filtering and summing a batch of at most one row. */
  lemma SingleRow(tail: seq<HistoryRow>, p: Label)
    requires |tail| <= 1
    ensures |tail| == 0 ==> OfProduct(tail, p) == [] && SumSales(OfProduct(tail, p)) == 0
    ensures |tail| == 1 ==> OfProduct(tail, p) == (if tail[0].produto == p then tail else [])
    ensures |tail| == 1 ==> SumSales(OfProduct(tail, p)) == if tail[0].produto == p then SalesValue(tail[0]) else 0
  {
    if |tail| == 1 {
      assert tail[..0] == [];
      assert OfProduct(tail, p) == OfProduct([], p) + (if tail[0].produto == p then [tail[0]] else []);
      if tail[0].produto == p {
        assert tail == [tail[0]];
        assert SumSales(tail) == SumSales(tail[..0]) + SalesValue(tail[0]);
      }
    }
  }

  lemma {:induction false} StockCellIsReference(rows: seq<HistoryRow>, l: Label, p: Label)
    ensures LastStock(OfProduct(RowsAt(rows, Key(l)), p)) == StockRef(rows, l, p)
    decreases |rows|
  {
    if |rows| > 0 {
      StockCellIsReference(rows[..|rows| - 1], l, p);
      StockCellStep(rows, l, p);
    }
  }

  /** One more row keeps the stock cell equal to its reference. */
  lemma StockCellStep(rows: seq<HistoryRow>, l: Label, p: Label)
    requires |rows| > 0
    requires LastStock(OfProduct(RowsAt(rows[..|rows| - 1], Key(l)), p)) == StockRef(rows[..|rows| - 1], l, p)
    ensures LastStock(OfProduct(RowsAt(rows, Key(l)), p)) == StockRef(rows, l, p)
  {
    var r := rows[|rows| - 1];
    var a := OfProduct(RowsAt(rows[..|rows| - 1], Key(l)), p);
    MatchesStep(rows, l, p);
    if Matches(r, l, p) {
      assert (a + [r])[|a + [r]| - 1] == r;
    } else {
      assert a + [] == a;
    }
  }

  /** The rows of `l` and `p` grow by the last row exactly when it matches. */
  lemma MatchesStep(rows: seq<HistoryRow>, l: Label, p: Label)
    requires |rows| > 0
    ensures var r := rows[|rows| - 1];
      OfProduct(RowsAt(rows, Key(l)), p) ==
        OfProduct(RowsAt(rows[..|rows| - 1], Key(l)), p) + (if Matches(r, l, p) then [r] else [])
  {
    var init := rows[..|rows| - 1];
    var r := rows[|rows| - 1];
    var tail := if Key(r.timestamp) == Key(l) then [r] else [];
    assert RowsAt(rows, Key(l)) == RowsAt(init, Key(l)) + tail;
    OfProductAppend(RowsAt(init, Key(l)), tail, p);
    SingleRow(tail, p);
  }

  lemma {:induction false} OfProductAppend(a: seq<HistoryRow>, b: seq<HistoryRow>, p: Label)
    ensures OfProduct(a + b, p) == OfProduct(a, p) + OfProduct(b, p)
    decreases |b|
  {
    if |b| == 0 {
      assert a + b == a;
    } else {
      assert (a + b)[..|a + b| - 1] == a + b[..|b| - 1];
      OfProductAppend(a, b[..|b| - 1], p);
    }
  }

  lemma {:induction false} SumSalesAppend(a: seq<HistoryRow>, b: seq<HistoryRow>)
    ensures SumSales(a + b) == SumSales(a) + SumSales(b)
    decreases |b|
  {
    if |b| == 0 {
      assert a + b == a;
    } else {
      assert (a + b)[..|a + b| - 1] == a + b[..|b| - 1];
      SumSalesAppend(a, b[..|b| - 1]);
    }
  }

  lemma CellsAreReference(rows: seq<HistoryRow>)
    ensures forall l, p :: SalesCell(GroupByTimestamp(rows), l, p) == SalesRef(rows, l, p)
    ensures forall l, p :: StockCell(GroupByTimestamp(rows), l, p) == StockRef(rows, l, p)
  {
    var group := GroupByTimestamp(rows);
    forall l, p
      ensures SalesCell(group, l, p) == SalesRef(rows, l, p)
      ensures StockCell(group, l, p) == StockRef(rows, l, p)
    {
      assert Lookup(group, l) == RowsAt(rows, Key(l));
      assert SalesCell(group, l, p) == SalesRef(rows, l, p) by {
        SalesCellIsReference(rows, l, p);
      }
      assert StockCell(group, l, p) == StockRef(rows, l, p) by {
        StockCellIsReference(rows, l, p);
      }
    }
  }

  // ---------------------------------------------------------------------------
  // buildCharts
  // ---------------------------------------------------------------------------

  function LabelsOf(rows: seq<HistoryRow>): seq<Label> {
    seq(|rows|, i requires 0 <= i < |rows| => LabelOf(rows[i]))
  }

  function ProductsOf(rows: seq<HistoryRow>): seq<Label> {
    seq(|rows|, i requires 0 <= i < |rows| => rows[i].produto)
  }

  /** The property key of each label. */
  function KeysOf(ps: seq<Label>): seq<string> {
    seq(|ps|, i requires 0 <= i < |ps| => Key(ps[i]))
  }

  /** The dataset key of each dataset, in dataset order. */
  function Produtos<T>(ds: seq<Dataset<T>>): seq<string> {
    seq(|ds|, k requires 0 <= k < |ds| => ds[k].produto)
  }

  /** Product `w` of the batch is the one whose series a shared key ends up
      holding: no other product with its key first appears after it. */
  predicate OwnsKey(rows: seq<HistoryRow>, w: Label) {
    && w in ProductsOf(rows)
    && forall q :: q in ProductsOf(rows) && Key(q) == Key(w) ==>
         FirstIndex(ProductsOf(rows), q) <= FirstIndex(ProductsOf(rows), w)
  }

  lemma KeysOfMember(ps: seq<Label>, k: string)
    ensures k in KeysOf(ps) <==> exists q :: q in ps && Key(q) == k
  {
    if k in KeysOf(ps) {
      var i :| 0 <= i < |ps| && KeysOf(ps)[i] == k;
      assert ps[i] in ps;
    } else {
      forall q | q in ps
        ensures Key(q) != k
      {
        var i :| 0 <= i < |ps| && ps[i] == q;
        assert KeysOf(ps)[i] == Key(q);
      }
    }
  }

  /** The position of the last label in `ps` with key `k`. */
  function LastWithKey(ps: seq<Label>, k: string): (j: nat)
    requires k in KeysOf(ps)
    ensures j < |ps| && Key(ps[j]) == k
    ensures forall i :: j < i < |ps| ==> Key(ps[i]) != k
    decreases |ps|
  {
    var n := |ps| - 1;
    if Key(ps[n]) == k then n
    else
      KeysOfDrop(ps, k);
      LastWithKey(ps[..n], k)
  }

  lemma KeysOfDrop(ps: seq<Label>, k: string)
    requires k in KeysOf(ps) && Key(ps[|ps| - 1]) != k
    ensures k in KeysOf(ps[..|ps| - 1])
  {
    var i :| 0 <= i < |ps| && KeysOf(ps)[i] == k;
    assert KeysOf(ps[..|ps| - 1])[i] == k;
  }

  /** The product whose series the dataset with key `k` holds: `produtos`
      is visited in first-seen order and each visit overwrites
      `vendasSeries[p]`, so the last distinct product with that key wins. */
  function Owner(rows: seq<HistoryRow>, k: string): (w: Label)
    requires k in KeysOf(ProductsOf(rows))
    ensures Key(w) == k && OwnsKey(rows, w)
  {
    var prods := Dedup(ProductsOf(rows));
    KeysOfMember(ProductsOf(rows), k);
    KeysOfMember(prods, k);
    var j := LastWithKey(prods, k);
    OwnerIsLatest(rows, j);
    prods[j]
  }

  lemma OwnerIsLatest(rows: seq<HistoryRow>, j: nat)
    requires j < |Dedup(ProductsOf(rows))|
    requires forall i :: j < i < |Dedup(ProductsOf(rows))| ==>
      Key(Dedup(ProductsOf(rows))[i]) != Key(Dedup(ProductsOf(rows))[j])
    ensures OwnsKey(rows, Dedup(ProductsOf(rows))[j])
  {
    var raw := ProductsOf(rows);
    var prods := Dedup(raw);
    var w := prods[j];
    DedupFirstSeenOrder(raw);
    forall q | q in raw && Key(q) == Key(w)
      ensures FirstIndex(raw, q) <= FirstIndex(raw, w)
    {
      var i :| 0 <= i < |prods| && prods[i] == q;
      if i < j {
        assert FirstIndex(raw, prods[i]) < FirstIndex(raw, prods[j]);
      }
    }
  }

  /** Two products that both own a key are the same product. */
  lemma OwnerIsUnique(rows: seq<HistoryRow>, w1: Label, w2: Label)
    requires OwnsKey(rows, w1) && OwnsKey(rows, w2) && Key(w1) == Key(w2)
    ensures w1 == w2
  {
    var raw := ProductsOf(rows);
    assert FirstIndex(raw, w1) == FirstIndex(raw, w2);
  }

  /** Every cell of the two series along `s.labels` holds the reference
      value for its label and the product that owns its dataset's key. */
  predicate CellsHold(rows: seq<HistoryRow>, s: SeriesData) {
    && |s.vendas| == |s.estoque|
    && (forall k :: 0 <= k < |s.vendas| ==>
          && s.vendas[k].produto == s.estoque[k].produto
          && s.vendas[k].produto in KeysOf(ProductsOf(rows))
          && |s.vendas[k].data| == |s.labels|
          && |s.estoque[k].data| == |s.labels|)
    && (forall k, i :: 0 <= k < |s.vendas| && 0 <= i < |s.labels| ==>
          && s.vendas[k].produto in KeysOf(ProductsOf(rows))
          && s.vendas[k].data[i] == SalesRef(rows, s.labels[i], Owner(rows, s.vendas[k].produto))
          && s.estoque[k].data[i] == StockRef(rows, s.labels[i], Owner(rows, s.vendas[k].produto)))
  }

  /** The series for the given axis and dataset keys, cell by cell as the
      script computes them from `rowByLabel`. */
  function Tabulate(rows: seq<HistoryRow>, labels: seq<Label>, keys: seq<string>): (s: SeriesData)
    requires forall k :: 0 <= k < |keys| ==> keys[k] in KeysOf(ProductsOf(rows))
    ensures s.labels == labels && Produtos(s.vendas) == keys
    ensures CellsHold(rows, s)
  {
    var group := GroupByTimestamp(rows);
    CellsAreReference(rows);
    var vendas := seq(|keys|, k requires 0 <= k < |keys| =>
      Dataset(keys[k], seq(|labels|, i requires 0 <= i < |labels| => SalesCell(group, labels[i], Owner(rows, keys[k])))));
    var estoque := seq(|keys|, k requires 0 <= k < |keys| =>
      Dataset(keys[k], seq(|labels|, i requires 0 <= i < |labels| => StockCell(group, labels[i], Owner(rows, keys[k])))));
    SeriesData(labels, vendas, estoque)
  }

  /** `buildCharts`: None (charts left as they are) when the payload is not
      an array or is empty; otherwise the label axis (the distinct labels in
      first-seen order), and one dataset per distinct product key, in the
      order the keys first appear (the order the script's assignments
      create them in), each holding its owner's series with every cell at
      the reference value. */
  function BuildSeries(payload: Option<seq<HistoryRow>>): (r: Option<SeriesData>)
    ensures r.None? <==> payload.None? || |payload.value| == 0
    ensures r.Some? ==>
      && NoDup(r.value.labels)
      && (forall l :: l in r.value.labels <==> l in LabelsOf(payload.value))
      && (forall i, j :: 0 <= i < j < |r.value.labels| ==>
            FirstIndex(LabelsOf(payload.value), r.value.labels[i]) < FirstIndex(LabelsOf(payload.value), r.value.labels[j]))
      && NoDup(Produtos(r.value.vendas))
      && (forall k :: k in Produtos(r.value.vendas) <==> k in KeysOf(ProductsOf(payload.value)))
      && (forall i, j :: 0 <= i < j < |Produtos(r.value.vendas)| ==>
            FirstIndex(KeysOf(ProductsOf(payload.value)), Produtos(r.value.vendas)[i]) < FirstIndex(KeysOf(ProductsOf(payload.value)), Produtos(r.value.vendas)[j]))
      && CellsHold(payload.value, r.value)
  {
    if payload.None? || |payload.value| == 0 then None
    else
      var rows := payload.value;
      var keys := Dedup(KeysOf(ProductsOf(rows)));
      DedupFirstSeenOrder(LabelsOf(rows));
      DedupFirstSeenOrder(KeysOf(ProductsOf(rows)));
      Some(Tabulate(rows, Dedup(LabelsOf(rows)), keys))
  }

  /** Membership in the label axis, stated over the rows. */
  lemma LabelsOfMembers(rows: seq<HistoryRow>, l: Label)
    ensures l in LabelsOf(rows) <==> exists i :: 0 <= i < |rows| && LabelOf(rows[i]) == l
  {
    if l in LabelsOf(rows) {
      var i :| 0 <= i < |rows| && LabelsOf(rows)[i] == l;
    } else {
      forall i | 0 <= i < |rows|
        ensures LabelOf(rows[i]) != l
      {
        assert LabelsOf(rows)[i] == LabelOf(rows[i]);
      }
    }
  }

  // ---------------------------------------------------------------------------
  // Properties of the reference definitions
  // ---------------------------------------------------------------------------

  /** No row's timestamp has the key of `l`: every product's sales cell is 0
      and its stock cell null. This is what a label taken from
      `timestamp_str` gets. */
  lemma {:induction false} UnmatchedLabelIsEmpty(rows: seq<HistoryRow>, l: Label, p: Label)
    requires forall i :: 0 <= i < |rows| ==> Key(rows[i].timestamp) != Key(l)
    ensures SalesRef(rows, l, p) == 0 && StockRef(rows, l, p) == None
    decreases |rows|
  {
    if |rows| > 0 {
      UnmatchedLabelIsEmpty(rows[..|rows| - 1], l, p);
    }
  }

  /** The stock cell is the stock of the last matching row: null when no row
      matches, and otherwise that of the matching row after which no other
      row matches (even when that stock is itself null). */
  lemma {:induction false} StockIsLastMatch(rows: seq<HistoryRow>, l: Label, p: Label, j: int)
    requires -1 <= j < |rows|
    requires j >= 0 ==> Matches(rows[j], l, p)
    requires forall i :: j < i < |rows| ==> !Matches(rows[i], l, p)
    ensures StockRef(rows, l, p) == if j < 0 then None else rows[j].estoque
    decreases |rows|
  {
    if |rows| > 0 && j < |rows| - 1 {
      StockIsLastMatch(rows[..|rows| - 1], l, p, j);
    }
  }

  /** Sales add up over the rows: splitting the batch splits the sums. */
  lemma {:induction false} SalesRefAppend(a: seq<HistoryRow>, b: seq<HistoryRow>, l: Label, p: Label)
    ensures SalesRef(a + b, l, p) == SalesRef(a, l, p) + SalesRef(b, l, p)
    decreases |b|
  {
    if |b| == 0 {
      assert a + b == a;
    } else {
      assert (a + b)[..|a + b| - 1] == a + b[..|b| - 1];
      SalesRefAppend(a, b[..|b| - 1], l, p);
    }
  }

  /** A batch of one row whose timestamp is falsy yields the label axis
      [its `timestamp_str`], a sales series [0] and a stock series [null]
      when that label's key differs from the timestamp's: the row is stored
      under the timestamp's key, which no label on the axis reaches. */
  lemma TimestampStrOnlyRow(row: HistoryRow)
    requires Falsy(row.timestamp) && Key(row.timestampStr) != Key(row.timestamp)
    ensures BuildSeries(Some([row])) ==
      Some(SeriesData([row.timestampStr], [Dataset(Key(row.produto), [0])], [Dataset(Key(row.produto), [None])]))
  {
    var rows := [row];
    var k := Key(row.produto);
    assert LabelsOf(rows) == [row.timestampStr];
    assert KeysOf(ProductsOf(rows)) == [k];
    var s := BuildSeries(Some(rows)).value;
    assert s.labels == [row.timestampStr] by {
      assert row.timestampStr in s.labels;
      assert |s.labels| <= 1 by {
        assert s.labels == Dedup(LabelsOf(rows));
      }
    }
    assert Produtos(s.vendas) == [k] by {
      assert k in Produtos(s.vendas);
      assert |Produtos(s.vendas)| <= 1 by {
        assert Produtos(s.vendas) == Dedup(KeysOf(ProductsOf(rows)));
      }
    }
    UnmatchedLabelIsEmpty(rows, row.timestampStr, Owner(rows, k));
    assert s.vendas[0].data == [0];
    assert s.estoque[0].data == [None];
    assert s.vendas == [Dataset(k, [0])];
    assert s.estoque == [Dataset(k, [None])];
  }

  /** Two rows at one timestamp, of the products `null` and "null": the
      chart gets a single dataset "null", and it holds the second row's
      stock; the first row's stock is drawn nowhere. */
  lemma NullAndStringNullShareDataset(a: HistoryRow, b: HistoryRow)
    requires a.timestamp == b.timestamp == Str("t")
    requires a.produto == Null && b.produto == Str("null")
    ensures var s := BuildSeries(Some([a, b])).value;
      && s.labels == [Str("t")]
      && Produtos(s.estoque) == ["null"]
      && s.estoque[0].data == [b.estoque]
  {
    var rows := [a, b];
    assert KeysOf(ProductsOf(rows)) == ["null", "null"];
    var t := Tabulate(rows, [Str("t")], ["null"]);
    assert BuildSeries(Some(rows)).value == t by {
      assert LabelsOf(rows) == [Str("t"), Str("t")];
      DedupOfRepeats(LabelsOf(rows), Str("t"));
      DedupOfRepeats(KeysOf(ProductsOf(rows)), "null");
    }
    assert t.labels == [Str("t")] && Produtos(t.estoque) == ["null"] && t.estoque[0].data == [b.estoque] by {
      SecondOwnsNull(rows);
      NullDatasetHoldsSecond(rows);
    }
  }

  lemma NullDatasetHoldsSecond(rows: seq<HistoryRow>)
    requires |rows| == 2 && rows[0].produto == Null && rows[1].produto == Str("null")
    requires rows[1].timestamp == Str("t")
    requires "null" in KeysOf(ProductsOf(rows)) && Owner(rows, "null") == Str("null")
    ensures var s := Tabulate(rows, [Str("t")], ["null"]);
      && s.labels == [Str("t")]
      && Produtos(s.estoque) == ["null"]
      && s.estoque[0].data == [rows[1].estoque]
  {
    var s := Tabulate(rows, [Str("t")], ["null"]);
    assert s.estoque[0].produto == s.vendas[0].produto;
    assert s.estoque[0].data[0] == StockRef(rows, Str("t"), Str("null"));
    assert Matches(rows[1], Str("t"), Str("null"));
  }

  /** A sequence holding only `x` de-duplicates to [x]. */
  lemma DedupOfRepeats<T(!new)>(s: seq<T>, x: T)
    requires x in s
    requires forall i :: 0 <= i < |s| ==> s[i] == x
    ensures Dedup(s) == [x]
  {
    var r := Dedup(s);
    assert x in r;
    forall y | y in r ensures y == x {
      assert y in s;
    }
  }

  /** Of `null` then "null", the second owns the key "null". */
  lemma SecondOwnsNull(rows: seq<HistoryRow>)
    requires |rows| == 2 && rows[0].produto == Null && rows[1].produto == Str("null")
    ensures "null" in KeysOf(ProductsOf(rows)) && Owner(rows, "null") == Str("null")
  {
    var raw := ProductsOf(rows);
    assert raw == [Null, Str("null")];
    assert KeysOf(raw)[0] == "null";
    var w := Owner(rows, "null");
    assert FirstIndex(raw, Null) == 0;
    assert FirstIndex(raw, Str("null")) == 1;
    assert OwnsKey(rows, w);
    assert Str("null") in raw && Key(Str("null")) == Key(w);
  }

  /** Two labels with the same property key have the same cells: the label
      `null` and the string "null" (or `undefined` and "undefined") read the
      same `rowByLabel` entry. */
  lemma {:induction false} SameKeySameCells(rows: seq<HistoryRow>, l1: Label, l2: Label, p: Label)
    requires Key(l1) == Key(l2)
    ensures SalesRef(rows, l1, p) == SalesRef(rows, l2, p)
    ensures StockRef(rows, l1, p) == StockRef(rows, l2, p)
    decreases |rows|
  {
    if |rows| > 0 {
      SameKeySameCells(rows[..|rows| - 1], l1, l2, p);
    }
  }

  /** A row with no timestamp at all and a row whose timestamps are both
      null give a two-label axis, `undefined` then `null`, and each label
      reaches only its own row. */
  lemma UndefinedAndNullAreTwoLabels(a: HistoryRow, b: HistoryRow)
    requires a.timestamp.Undefined? && a.timestampStr.Undefined?
    requires b.timestamp.Null? && b.timestampStr.Null?
    ensures var s := BuildSeries(Some([a, b])).value;
      && s.labels == [Undefined, Null]
      && StockRef([a, b], Undefined, a.produto) == a.estoque
      && StockRef([a, b], Null, b.produto) == b.estoque
  {
    var rows := [a, b];
    var labels := LabelsOf(rows);
    assert labels == [Undefined, Null];
    var s := BuildSeries(Some(rows)).value;
    assert s.labels == [Undefined, Null] by {
      assert s.labels == Dedup(labels);
      var one := labels[..1];
      assert one[..0] == [];
      assert Dedup(one) == [Undefined];
    }
    assert rows[..1] == [a];
  }
}
