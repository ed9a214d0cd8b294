/** The table projection shared by `renderTable` (app.js, app_complete.js)
    and `updateTable` (app_working.js): a product-keyed object becomes the
    rows of a two-column table body. A JavaScript object is modelled as its
    entries in `Object.entries` order; `localeCompare` is approximated by the
    ordinal order `StrLe`. */
module Table {
  import opened Common

  type Entry<V> = (string, V)

  /** A table body row: the centred "Sem dados" cell spanning both columns,
      or one (product, value) pair. */
  datatype Row<V> = Placeholder(text: string, colSpan: nat) | Item(entry: Entry<V>)

  const NoDataText: string := "Sem dados"

  predicate DistinctKeys<V>(es: seq<Entry<V>>) {
    forall i, j :: 0 <= i < j < |es| ==> es[i].0 != es[j].0
  }

  predicate SortedByKey<V>(es: seq<Entry<V>>) {
    forall i, j :: 0 <= i < j < |es| ==> StrLe(es[i].0, es[j].0)
  }

  predicate StrictlySortedByKey<V>(es: seq<Entry<V>>) {
    forall i, j :: 0 <= i < j < |es| ==> StrLt(es[i].0, es[j].0)
  }

  /** Sorted and pairwise distinct keys are strictly ascending keys. */
  lemma SortedDistinctStrict<V>(es: seq<Entry<V>>)
    requires SortedByKey(es) && DistinctKeys(es)
    ensures StrictlySortedByKey(es)
  {
  }

  predicate KeyBelowAll<V>(k: string, es: seq<Entry<V>>) {
    forall i :: 0 <= i < |es| ==> StrLe(k, es[i].0)
  }

  predicate KeyAbsent<V>(k: string, es: seq<Entry<V>>) {
    forall i :: 0 <= i < |es| ==> es[i].0 != k
  }

  lemma ConsSorted<V>(x: Entry<V>, es: seq<Entry<V>>)
    requires SortedByKey(es) && KeyBelowAll(x.0, es)
    ensures SortedByKey([x] + es)
  {
  }

  lemma ConsDistinct<V>(x: Entry<V>, es: seq<Entry<V>>)
    ensures DistinctKeys(es) && KeyAbsent(x.0, es) ==> DistinctKeys([x] + es)
  {
  }

  lemma FrontBelowAll<V>(x: Entry<V>, es: seq<Entry<V>>)
    requires SortedByKey(es) && |es| > 0 && StrLe(x.0, es[0].0)
    ensures KeyBelowAll(x.0, es)
  {
    forall i | 0 <= i < |es|
      ensures StrLe(x.0, es[i].0)
    {
      if i > 0 {
        StrLeTransitive(x.0, es[0].0, es[i].0);
      }
    }
  }

  /** Inserts `e` in front of the first entry whose key does not sort below it. */
  function Insert<V>(e: Entry<V>, es: seq<Entry<V>>): (r: seq<Entry<V>>)
    requires SortedByKey(es)
    ensures SortedByKey(r)
    ensures |r| == |es| + 1
    ensures forall i :: 0 <= i < |r| ==> r[i] == e || r[i] in es
    ensures DistinctKeys(es) && KeyAbsent(e.0, es) ==> DistinctKeys(r)
  {
    if |es| == 0 then
      [e]
    else if StrLe(e.0, es[0].0) then
      FrontBelowAll(e, es);
      ConsSorted(e, es);
      ConsDistinct(e, es);
      [e] + es
    else
      var rest := Insert(e, es[1..]);
      InsertBehindHead(e, es, rest);
      [es[0]] + rest
  }

  /** When `e` sorts after the head, the head followed by `e` inserted in
      the tail is sorted and holds only `e` and entries of `es`. */
  lemma InsertBehindHead<V>(e: Entry<V>, es: seq<Entry<V>>, rest: seq<Entry<V>>)
    requires SortedByKey(es) && |es| > 0 && !StrLe(e.0, es[0].0)
    requires SortedByKey(rest)
    requires forall i :: 0 <= i < |rest| ==> rest[i] == e || rest[i] in es[1..]
    requires DistinctKeys(es[1..]) && KeyAbsent(e.0, es[1..]) ==> DistinctKeys(rest)
    ensures SortedByKey([es[0]] + rest)
    ensures forall i :: 0 <= i < |rest| + 1 ==> ([es[0]] + rest)[i] == e || ([es[0]] + rest)[i] in es
    ensures DistinctKeys(es) && KeyAbsent(e.0, es) ==> DistinctKeys([es[0]] + rest)
  {
    HeadBelowInserted(e, es, rest);
    ConsSorted(es[0], rest);
    ConsDistinct(es[0], rest);
    var r := [es[0]] + rest;
    forall i | 0 <= i < |r|
      ensures r[i] == e || r[i] in es
    {
      if i > 0 {
        assert r[i] == rest[i - 1];
        if rest[i - 1] != e {
          var k :| 0 <= k < |es[1..]| && es[1..][k] == rest[i - 1];
          assert es[k + 1] == r[i];
        }
      }
    }
  }

  /** Insertion adds exactly `e` and loses nothing. */
  lemma {:induction false} InsertPermutes<V>(e: Entry<V>, es: seq<Entry<V>>)
    requires SortedByKey(es)
    ensures multiset(Insert(e, es)) == multiset(es) + multiset{e}
  {
    if |es| > 0 && !StrLe(e.0, es[0].0) {
      InsertPermutes(e, es[1..]);
      assert es == [es[0]] + es[1..];
      assert Insert(e, es) == [es[0]] + Insert(e, es[1..]);
    }
  }

  lemma HeadBelowInserted<V>(e: Entry<V>, es: seq<Entry<V>>, rest: seq<Entry<V>>)
    requires SortedByKey(es) && |es| > 0 && !StrLe(e.0, es[0].0)
    requires forall i :: 0 <= i < |rest| ==> rest[i] == e || rest[i] in es[1..]
    ensures KeyBelowAll(es[0].0, rest)
    ensures DistinctKeys(es) && KeyAbsent(e.0, es) ==> KeyAbsent(es[0].0, rest)
  {
    StrLeTotal(e.0, es[0].0);
    forall i | 0 <= i < |rest|
      ensures StrLe(es[0].0, rest[i].0)
      ensures DistinctKeys(es) && KeyAbsent(e.0, es) ==> rest[i].0 != es[0].0
    {
      if rest[i] != e {
        var k :| 0 <= k < |es[1..]| && es[1..][k] == rest[i];
        assert es[k + 1] == rest[i];
      }
    }
  }

  /** The entries reordered ascending by key (an insertion sort). */
  function SortByKey<V>(es: seq<Entry<V>>): (r: seq<Entry<V>>)
    ensures SortedByKey(r)
    ensures multiset(r) == multiset(es)
    ensures |r| == |es|
    ensures forall i :: 0 <= i < |r| ==> r[i] in es
    ensures DistinctKeys(es) ==> StrictlySortedByKey(r)
  {
    if |es| == 0 then
      []
    else
      var rest := SortByKey(es[1..]);
      SortStep(es, rest);
      Insert(es[0], rest)
  }

  /** Inserting the head into the sorted tail sorts the whole sequence. */
  lemma SortStep<V>(es: seq<Entry<V>>, rest: seq<Entry<V>>)
    requires |es| > 0 && SortedByKey(rest) && multiset(rest) == multiset(es[1..])
    requires DistinctKeys(es[1..]) ==> StrictlySortedByKey(rest)
    ensures var r := Insert(es[0], rest);
      && multiset(r) == multiset(es)
      && (forall i :: 0 <= i < |r| ==> r[i] in es)
      && (DistinctKeys(es) ==> StrictlySortedByKey(r))
  {
    assert es == [es[0]] + es[1..];
    InsertPermutes(es[0], rest);
    var r := Insert(es[0], rest);
    forall i | 0 <= i < |r|
      ensures r[i] in es
    {
      assert r[i] in multiset(r);
    }
    if DistinctKeys(es) {
      forall i | 0 <= i < |rest|
        ensures rest[i].0 != es[0].0
      {
        assert rest[i] in multiset(es[1..]);
        var k :| 0 <= k < |es[1..]| && es[1..][k] == rest[i];
        assert es[k + 1] == rest[i];
      }
      assert DistinctKeys(rest);
      SortedDistinctStrict(r);
    }
  }

  /** `renderTable`/`updateTable`: the rows a table body holds after the
      object `obj` (None when it is null or undefined) is rendered. */
  function RenderTable<V>(obj: Option<seq<Entry<V>>>): (rows: seq<Row<V>>)
    ensures (obj.None? || |obj.value| == 0) <==> rows == [Placeholder(NoDataText, 2)]
    ensures obj.Some? && |obj.value| > 0 ==>
      && AllItems(rows)
      && |rows| == |obj.value|
      && SortedByKey(ItemEntries(rows))
      && multiset(ItemEntries(rows)) == multiset(obj.value)
  {
    if obj.None? || |obj.value| == 0 then
      [Placeholder(NoDataText, 2)]
    else
      var sorted := SortByKey(obj.value);
      var rows := seq(|sorted|, i requires 0 <= i < |sorted| => Item(sorted[i]));
      assert ItemEntries(rows) == sorted;
      rows
  }

  predicate AllItems<V>(rows: seq<Row<V>>) {
    forall i :: 0 <= i < |rows| ==> rows[i].Item?
  }

  /** The (product, value) pairs the item rows show, in row order. */
  function ItemEntries<V>(rows: seq<Row<V>>): (es: seq<Entry<V>>)
    requires AllItems(rows)
  {
    seq(|rows|, i requires 0 <= i < |rows| => rows[i].entry)
  }

  /** A JavaScript object (distinct keys) renders as one row per entry, keys
      strictly ascending, and a (key, value) pair is shown exactly when it is
      an entry of the object; an empty or missing object renders as the single
      placeholder row. */
  lemma RenderTableRows<V>(obj: Option<seq<Entry<V>>>)
    requires obj.Some? ==> DistinctKeys(obj.value)
    ensures obj.None? || |obj.value| == 0 ==>
      |RenderTable(obj)| == 1 && RenderTable(obj)[0] == Placeholder(NoDataText, 2)
    ensures obj.Some? && |obj.value| > 0 ==>
      && AllItems(RenderTable(obj))
      && |RenderTable(obj)| == |obj.value|
      && StrictlySortedByKey(ItemEntries(RenderTable(obj)))
      && (forall e :: e in obj.value <==> e in ItemEntries(RenderTable(obj)))
  {
    if obj.Some? && |obj.value| > 0 {
      var es := ItemEntries(RenderTable(obj));
      assert es == SortByKey(obj.value);
      forall e
        ensures e in obj.value <==> e in es
      {
        assert e in obj.value <==> e in multiset(obj.value);
        assert e in es <==> e in multiset(es);
      }
    }
  }

  /** app_working.js replaces a missing object by `{}` before `updateTable`;
      the rows are the same as `renderTable` on the missing object. */
  lemma MissingObjectDefaultsToEmpty<V>(obj: Option<seq<Entry<V>>>)
    ensures RenderTable(Some(obj.GetOr([]))) == RenderTable(obj)
  {
  }
}
