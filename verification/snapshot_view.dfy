/** The snapshot renderer: `updateSnapshot` (app.js, app_complete.js) and
    `updateDashboard` (app_working.js) write four scalar summary fields and
    rebuild the sales and stock tables from the snapshot's two objects. The
    page's elements are assumed present. */
module SnapshotView {
  import opened Common
  import opened JsValue
  import opened Table

  /** The snapshot object as received: four scalars of any JSON type and
      the two product-keyed objects (None: null or absent). */
  datatype Snapshot = Snapshot(
    totalVendas: JsVal,
    ultimoTimestamp: JsVal,
    linhas: JsVal,
    atualizadoEm: JsVal,
    vendasPorProduto: Option<seq<Entry<JsVal>>>,
    estoquePorProduto: Option<seq<Entry<JsVal>>>)

  /** What the page shows for one snapshot. */
  datatype View = View(
    totalVendas: Shown,
    ultimaAtualizacao: Shown,
    linhasCsv: Shown,
    atualizadoEm: Shown,
    tabelaVendas: seq<Row<JsVal>>,
    tabelaEstoque: seq<Row<JsVal>>)

  /** The placeholder idiom of each variant. */
  function Field(variant: Variant, v: JsVal): Shown {
    if variant == AppWorking then FalsyFallback(v) else NullishFallback(v)
  }

  /** Field display `shown` is right for the scalar `x` under `variant`:
      the placeholder exactly when `x` is missing in the variant's sense
      (nullish for `??`, falsy for `||`), otherwise `x` itself. */
  predicate Shows(variant: Variant, shown: Shown, x: JsVal) {
    && (shown.Dashes? <==> if variant == AppWorking then !Truthy(x) else Nullish(x))
    && (shown.Value? ==> shown.v == x)
  }

  /** The view of `snap`: app.js and app_complete.js show `--` only for
      null/undefined scalars, app_working.js for every falsy one, and every
      other scalar as it is; both tables come out as `renderTable` of the
      object, app_working.js first replacing a missing object by `{}`. */
  function Render(variant: Variant, snap: Snapshot): (v: View)
    ensures Shows(variant, v.totalVendas, snap.totalVendas)
    ensures Shows(variant, v.ultimaAtualizacao, snap.ultimoTimestamp)
    ensures Shows(variant, v.linhasCsv, snap.linhas)
    ensures Shows(variant, v.atualizadoEm, snap.atualizadoEm)
    ensures v.tabelaVendas == RenderTable(snap.vendasPorProduto)
    ensures v.tabelaEstoque == RenderTable(snap.estoquePorProduto)
  {
    var vendas := if variant == AppWorking then Some(snap.vendasPorProduto.GetOr([])) else snap.vendasPorProduto;
    var estoque := if variant == AppWorking then Some(snap.estoquePorProduto.GetOr([])) else snap.estoquePorProduto;
    MissingObjectDefaultsToEmpty(snap.vendasPorProduto);
    MissingObjectDefaultsToEmpty(snap.estoquePorProduto);
    View(
      Field(variant, snap.totalVendas),
      Field(variant, snap.ultimoTimestamp),
      Field(variant, snap.linhas),
      Field(variant, snap.atualizadoEm),
      RenderTable(vendas),
      RenderTable(estoque))
  }

  /** Two entries arriving in descending key order are rendered swapped. */
  lemma SortTwo<V>(a: string, b: string, x: V, y: V)
    requires StrLe(a, b) && !StrLe(b, a)
    ensures SortByKey([(b, x), (a, y)]) == [(a, y), (b, x)]
  {
    var es := [(b, x), (a, y)];
    assert es[1..] == [(a, y)];
    assert SortByKey(es[1..]) == [(a, y)] by {
      assert es[1..][1..] == [];
    }
    assert Insert((b, x), [(a, y)]) == [(a, y)] + Insert((b, x), [(a, y)][1..]);
  }

  /** A snapshot with total 42 and sales {"B": 5, "A": 10} shows 42 and the
      rows A (10) then B (5) in every variant. */
  lemma RenderExample(variant: Variant)
    ensures
      var snap := Snapshot(Num(42), Undefined, Undefined, Undefined,
                           Some([("B", Num(5)), ("A", Num(10))]), None);
      var v := Render(variant, snap);
      && v.totalVendas == Value(Num(42))
      && v.tabelaVendas == [Item(("A", Num(10))), Item(("B", Num(5)))]
      && v.tabelaEstoque == [Placeholder(NoDataText, 2)]
  {
    var snap := Snapshot(Num(42), Undefined, Undefined, Undefined,
                         Some([("B", Num(5)), ("A", Num(10))]), None);
    var v := Render(variant, snap);
    assert Truthy(Num(42)) && !Nullish(Num(42));
    assert v.totalVendas == Value(Num(42));
    TableExample();
    assert v.tabelaVendas == RenderTable(snap.vendasPorProduto);
    assert v.tabelaEstoque == RenderTable(None);
  }

  /** The sales object {"B": 5, "A": 10} becomes the rows A then B. */
  lemma TableExample()
    ensures RenderTable(Some([("B", Num(5)), ("A", Num(10))])) == [Item(("A", Num(10))), Item(("B", Num(5)))]
  {
    var es := [("B", Num(5)), ("A", Num(10))];
    assert SortByKey(es) == [("A", Num(10)), ("B", Num(5))] by {
      assert StrLe("A", "B") && !StrLe("B", "A");
      SortTwo("A", "B", Num(5), Num(10));
    }
    var rows := RenderTable(Some(es));
    assert rows == seq(2, i requires 0 <= i < 2 => Item(SortByKey(es)[i]));
  }
}
