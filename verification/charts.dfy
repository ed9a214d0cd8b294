/** The chart sink of app.js and app_complete.js: `ensureChart`, a cache of
    chart instances keyed by canvas id that creates a chart once and then
    reuses it, and the two writers that fill charts with data,
    `buildPieChart` and the tail of `buildCharts`.

    Charts are values: updating a chart's data replaces the cached value.
    The page is modelled by the set of canvas ids on which a chart can be
    built (the canvas exists, yields a 2D context, and the Chart.js
    constructor does not throw); every other id makes `ensureChart` return
    null. Chart.js options are not modelled. */
module Charts {
  import opened Common
  import opened JsValue
  import opened Series
  import Table

  const PieId: string := "chartPizza"
  const VendasId: string := "chartVendas"
  const EstoqueId: string := "chartEstoque"

  /** The ten slice colours of the pie chart. */
  const Palette: seq<string> := [
    "#FF6384", "#36A2EB", "#FFCE56", "#4BC0C0", "#9966FF",
    "#FF9F40", "#FF6B6B", "#4ECDC4", "#45B7D1", "#96CEB4"
  ]

  datatype Chart =
    | Pie(pieLabels: seq<string>, pieData: seq<JsVal>, colors: seq<string>)
    | Line(yTitle: string, labels: seq<Label>, datasets: seq<Dataset<Option<int>>>)

  type Cache = map<string, Chart>

  /** The pie chart is cached under its id and only there; line charts
      everywhere else. */
  predicate CacheOk(cache: Cache) {
    forall id :: id in cache ==> (cache[id].Pie? <==> id == PieId)
  }

  /** The chart `ensureChart` constructs for `id`: a pie for the pie canvas
      (app_complete.js gives it the palette at construction, app.js an empty
      colour list), a line chart titled `yTitle` otherwise. */
  function NewChart(variant: Variant, id: string, yTitle: string): Chart {
    if id == PieId then Pie([], [], if variant == AppComplete then Palette else [])
    else Line(yTitle, [], [])
  }

  /** `ensureChart(id, label, yTitle)`: the cached chart if there is one;
      otherwise, when the canvas can carry a chart, a new chart that is
      cached; otherwise null, with the cache untouched. */
  function EnsureChart(cache: Cache, canvases: set<string>, variant: Variant, id: string, yTitle: string)
    : (r: (Cache, Option<Chart>))
    requires variant != AppWorking
    requires CacheOk(cache)
    ensures CacheOk(r.0)
    ensures id in cache ==> r == (cache, Some(cache[id]))
    ensures r.1.Some? <==> id in cache || id in canvases
    ensures r.1.None? ==> r.0 == cache
    ensures r.1.Some? ==> id in r.0 && r.0[id] == r.1.value && r.0.Keys == cache.Keys + {id}
    ensures forall other :: other != id && other in cache ==> other in r.0 && r.0[other] == cache[other]
    ensures id !in cache && r.1.Some? ==>
      (r.1.value.Pie? <==> id == PieId) && (r.1.value.Line? ==> r.1.value.yTitle == yTitle)
  {
    if id in cache then (cache, Some(cache[id]))
    else if id !in canvases then (cache, None)
    else
      var c := NewChart(variant, id, yTitle);
      (cache[id := c], Some(c))
  }

  /** Calling `ensureChart` again returns the same chart and changes nothing,
      whether or not the first call created it; a call that found no canvas
      cached nothing, so a later call whose canvas has appeared can still
      create the chart. */
  lemma {:induction false} EnsureChartIdempotent(cache: Cache, canvases: set<string>, variant: Variant, id: string, yTitle: string, yTitle2: string, canvases2: set<string>)
    requires variant != AppWorking && CacheOk(cache)
    ensures
      var (c1, h1) := EnsureChart(cache, canvases, variant, id, yTitle);
      var (c2, h2) := EnsureChart(c1, canvases2, variant, id, yTitle2);
      (h1.Some? ==> c2 == c1 && h2 == h1) && (h1.None? ==> c1 == cache && id !in c1)
  {
    var (c1, h1) := EnsureChart(cache, canvases, variant, id, yTitle);
    if h1.Some? {
      assert id in c1 && c1[id] == h1.value;
    }
  }

  /** `buildPieChart(vendas_por_produto)`: nothing happens for a missing or
      empty object or a missing canvas; otherwise the pie's labels and data
      become the object's keys and values, in entry order. app.js also sets
      the slice colours to the first min(10, n) palette colours;
      app_complete.js keeps those given at construction. */
  function BuildPieChart(cache: Cache, canvases: set<string>, variant: Variant, vendas: Option<seq<Table.Entry<JsVal>>>)
    : (r: Cache)
    requires variant != AppWorking
    requires CacheOk(cache)
    ensures CacheOk(r)
    ensures vendas.None? || |vendas.value| == 0 ==> r == cache
    ensures PieId !in cache && PieId !in canvases ==> r == cache
    ensures forall other :: other != PieId && other in cache ==> other in r && r[other] == cache[other]
    ensures vendas.Some? && |vendas.value| > 0 && (PieId in cache || PieId in canvases) ==>
      && PieId in r && r.Keys == cache.Keys + {PieId}
      && var pie := r[PieId];
      && pie.Pie?
      && |pie.pieLabels| == |pie.pieData| == |vendas.value|
      && (forall i :: 0 <= i < |vendas.value| ==> (pie.pieLabels[i], pie.pieData[i]) == vendas.value[i])
      && (variant == App ==> |pie.colors| == Min(10, |vendas.value|) && pie.colors <= Palette)
      && (variant == AppComplete ==>
            pie.colors == (if PieId in cache then cache[PieId].colors else Palette))
  {
    if vendas.None? || |vendas.value| == 0 then cache
    else
      var (c1, h) := EnsureChart(cache, canvases, variant, PieId, "");
      if h.None? then c1
      else
        var es := vendas.value;
        var labels := seq(|es|, i requires 0 <= i < |es| => es[i].0);
        var data := seq(|es|, i requires 0 <= i < |es| => es[i].1);
        var colors := if variant == App then Palette[..Min(10, |es|)] else h.value.colors;
        c1[PieId := Pie(labels, data, colors)]
  }

  /** The dataset list of a line chart: one dataset per product, values as
      chart points (a sales total is always present). */
  function SalesDatasets(ds: seq<Dataset<int>>): (r: seq<Dataset<Option<int>>>)
    ensures |r| == |ds|
    ensures forall k :: 0 <= k < |ds| ==>
      r[k].produto == ds[k].produto && |r[k].data| == |ds[k].data| &&
      forall i :: 0 <= i < |ds[k].data| ==> r[k].data[i] == Some(ds[k].data[i])
  {
    seq(|ds|, k requires 0 <= k < |ds| =>
      Dataset(ds[k].produto, seq(|ds[k].data|, i requires 0 <= i < |ds[k].data| => Some(ds[k].data[i]))))
  }

  /** Both line charts are cached or can be created. */
  predicate LineChartsAvailable(cache: Cache, canvases: set<string>) {
    (VendasId in cache || VendasId in canvases) && (EstoqueId in cache || EstoqueId in canvases)
  }

  /** `buildCharts(rows)` from the series onward: when the payload yields
      series and both line charts can be had, both take the label axis and
      their datasets; when either cannot, no chart receives data, though the
      one that could be created stays cached; an empty or non-array payload
      leaves the cache as it was. */
  function ApplyHistory(cache: Cache, canvases: set<string>, variant: Variant, payload: Option<seq<HistoryRow>>)
    : (r: Cache)
    requires variant != AppWorking
    requires CacheOk(cache)
    ensures CacheOk(r)
    ensures payload.None? || |payload.value| == 0 ==> r == cache
    ensures forall other :: other != VendasId && other != EstoqueId && other in cache ==>
      other in r && r[other] == cache[other]
    ensures payload.Some? && |payload.value| > 0 && LineChartsAvailable(cache, canvases) ==>
      var s := BuildSeries(payload).value;
      && VendasId in r && EstoqueId in r
      && r[VendasId].Line? && r[VendasId].labels == s.labels && r[VendasId].datasets == SalesDatasets(s.vendas)
      && r[EstoqueId].Line? && r[EstoqueId].labels == s.labels && r[EstoqueId].datasets == s.estoque
    ensures payload.Some? && |payload.value| > 0 && !LineChartsAvailable(cache, canvases) ==>
      forall id :: id in r ==> id in cache || (id in canvases && r[id] == NewChart(variant, id, if id == VendasId then "Vendas" else "Estoque"))
  {
    match BuildSeries(payload)
    case None => cache
    case Some(s) =>
      var (c1, hv) := EnsureChart(cache, canvases, variant, VendasId, "Vendas");
      var (c2, he) := EnsureChart(c1, canvases, variant, EstoqueId, "Estoque");
      if hv.None? || he.None? then c2
      else
        var v := hv.value.(labels := s.labels, datasets := SalesDatasets(s.vendas));
        var e := he.value.(labels := s.labels, datasets := s.estoque);
        InstallLines(c2, v, e)
  }

  /** Stores the two line charts under their ids. */
  function InstallLines(cache: Cache, v: Chart, e: Chart): (r: Cache)
    requires CacheOk(cache) && v.Line? && e.Line?
    ensures CacheOk(r)
    ensures r.Keys == cache.Keys + {VendasId, EstoqueId}
    ensures r[VendasId] == v && r[EstoqueId] == e
    ensures forall other :: other != VendasId && other != EstoqueId && other in cache ==> r[other] == cache[other]
  {
    cache[VendasId := v][EstoqueId := e]
  }
}
