/** The batch generator of generate_batch_data.py: `gerar_dados`, which
    writes `int(duracao / intervalo) + 1` steps of one row per product,
    and the product-list option of `main`.

    Times are whole minutes counted from `datetime.min` (0001-01-01 00:00),
    so a `datetime` exists exactly for the minutes 0 through `MaxMinute`
    (9999-12-31 23:59); stepping outside raises `OverflowError`. The wall
    clock (`agora`) and the sales drawn by `random.randint(0, 10)` are
    parameters. Every product of the list is
    a key of the stock dictionary from the start, so the stock recurrence
    runs with every product starting at `estoque_inicial`. */
module BatchData {
  import opened Common
  import opened Stock
  import opened PyText

  const DefaultProdutos: seq<string> := ["Produto A", "Produto B", "Produto C"]

  /** The largest sale `random.randint(0, 10)` draws. */
  const MaxVendas: int := 10

  function Abs(a: int): nat {
    if a < 0 then -a else a
  }

  /** Python's `int(a / b)`: the quotient truncated toward zero (not Dafny's
      Euclidean division, nor Python's floor division). */
  function TruncDiv(a: int, b: int): (q: int)
    requires b != 0
    ensures Abs(q) == Abs(a) / Abs(b)
    ensures q != 0 ==> ((q > 0) <==> ((a > 0) == (b > 0)))
  {
    var m := Abs(a);
    var d := Abs(b);
    DivNat(m, d);
    var q := m / d;
    if (a < 0) != (b < 0) then -q else q
  }

  lemma DivNat(m: nat, d: nat)
    requires d > 0
    ensures m / d >= 0
  {
  }

  /** -7 minutes in steps of 5 is -1 truncated, where floor division gives -2. */
  lemma TruncatesTowardZero()
    ensures TruncDiv(-7, 5) == -1 && TruncDiv(7, -5) == -1 && TruncDiv(30, 5) == 6
  {
  }

  /** `passos`. */
  function Steps(duracao: int, intervalo: int): int
    requires intervalo != 0
  {
    TruncDiv(duracao, intervalo) + 1
  }

  /** The slots of one step: every product of the list, in order, at `ts`. */
  function StepSlots(ts: int, produtos: seq<string>): (s: seq<Slot>)
    ensures |s| == |produtos|
    ensures forall j :: 0 <= j < |produtos| ==> s[j] == (ts, produtos[j])
  {
    seq(|produtos|, j requires 0 <= j < |produtos| => (ts, produtos[j]))
  }

  lemma StepSlotsSnoc(ts: int, ps: seq<string>, j: nat)
    requires j < |ps|
    ensures StepSlots(ts, ps[..j + 1]) == StepSlots(ts, ps[..j]) + [(ts, ps[j])]
  {
  }

  /** Step i + 1 of `passos` still finds its draws. */
  lemma StepFits(i: nat, passos: nat, n: nat)
    requires i < passos
    ensures i * n + n <= passos * n
  {
    MulMono(i + 1, passos, n);
  }

  lemma MulMono(a: nat, b: nat, n: nat)
    requires a <= b
    ensures a * n <= b * n
  {
  }

  /** The position of product j of step i among rows of n products per step. */
  function Pos(i: nat, n: nat, j: nat): nat {
    i * n + j
  }

  /** The slots of `passos` steps, step-major and product-minor. */
  function Schedule(inicio: int, intervalo: int, passos: nat, produtos: seq<string>): (s: seq<Slot>)
    ensures |s| == passos * |produtos|
    decreases passos
  {
    if passos == 0 then []
    else
      var prev := Schedule(inicio, intervalo, passos - 1, produtos);
      var s := prev + StepSlots(inicio + (passos - 1) * intervalo, produtos);
      assert passos * |produtos| == (passos - 1) * |produtos| + |produtos|;
      s
  }

  /** Slot i·n + j of the schedule is product j at the time of step i. */
  lemma {:induction false} ScheduleAt(inicio: int, intervalo: int, passos: nat, produtos: seq<string>, i: nat, j: nat)
    requires i < passos && j < |produtos|
    ensures Pos(i, |produtos|, j) < passos * |produtos|
    ensures Schedule(inicio, intervalo, passos, produtos)[Pos(i, |produtos|, j)] == (inicio + i * intervalo, produtos[j])
    decreases passos
  {
    var n := |produtos|;
    var prev := Schedule(inicio, intervalo, passos - 1, produtos);
    MulMono(i + 1, passos, n);
    assert (i + 1) * n == i * n + n;
    if i < passos - 1 {
      ScheduleAt(inicio, intervalo, passos - 1, produtos, i, j);
    } else {
      assert i * n == |prev|;
    }
  }

  /** The days from 0001-01-01 through 9999-12-31 (`date.max.toordinal()`). */
  const DaysInRange: int := 3652059

  /** The last minute a `datetime` can hold. */
  const MaxMinute: int := DaysInRange * 1440 - 1

  /** Minute `m` is a `datetime`: `datetime.min <= m <= datetime.max`. */
  predicate InRange(m: int) {
    0 <= m <= MaxMinute
  }

  /** How `gerar_dados` ends: `OverflowError` from the start time,
      `ZeroDivisionError` from the step count, or the rows it writes. */
  datatype Generated = Overflow | ZeroInterval | Generated(rows: seq<StockRow>)

  /** The number of rows `gerar_dados` writes: the steps `range(passos)`
      visits (none when `passos` is not positive) times the products. */
  function RowCount(duracao: int, intervalo: int, produtos: seq<string>): nat
    requires intervalo != 0
  {
    Max(0, Steps(duracao, intervalo)) * |produtos|
  }

  function ProductsOrDefault(produtos: Option<seq<string>>): seq<string> {
    if produtos.None? then DefaultProdutos else produtos.value
  }

  /** `gerar_dados`: a start `duracao` minutes before `agora` that leaves
      the `datetime` range raises `OverflowError` before anything else (the
      subtraction precedes the division); then a zero interval is a division
      by zero; otherwise the rows are those of the stock recurrence over the
      schedule from that start, there are steps × products of them, and
      every timestamp written is a `datetime`. A product list of None means
      the three default products (an empty list stays empty). Nothing is
      written on either error. (A duration too large for `timedelta` itself
      also raises `OverflowError`, and such a start is out of range too.) */
  method GerarDados(agora: int, duracao: int, intervalo: int, produtos: Option<seq<string>>, inicial: int, draws: seq<int>)
    returns (out: Generated)
    requires InRange(agora)
    requires forall k :: 0 <= k < |draws| ==> 0 <= draws[k] <= MaxVendas
    requires intervalo != 0 ==> |draws| >= RowCount(duracao, intervalo, ProductsOrDefault(produtos))
    ensures out.Overflow? <==> !InRange(agora - duracao)
    ensures out.ZeroInterval? <==> InRange(agora - duracao) && intervalo == 0
    ensures out.Generated? ==>
      var ps := ProductsOrDefault(produtos);
      && |out.rows| == RowCount(duracao, intervalo, ps)
      && out.rows == Deplete(map[], inicial, Schedule(agora - duracao, intervalo, Max(0, Steps(duracao, intervalo)), ps), draws)
      && (forall k :: 0 <= k < |out.rows| ==> InRange(out.rows[k].timestamp))
  {
    var ps := ProductsOrDefault(produtos);
    if !InRange(agora - duracao) {
      return Overflow;
    }
    if intervalo == 0 {
      return ZeroInterval;
    }
    var passos := Max(0, Steps(duracao, intervalo));
    var rows := GenerateRows(agora - duracao, intervalo, passos, ps, inicial, draws);
    RowsInRange(agora, duracao, intervalo, ps, inicial, draws);
    out := Generated(rows);
  }

  /** Every step's time lies between the start and `agora`, so once the
      start is a `datetime` no later step of the loop overflows. */
  lemma StepTimeInRange(agora: int, duracao: int, intervalo: int, i: nat)
    requires InRange(agora) && InRange(agora - duracao) && intervalo != 0
    requires i < Steps(duracao, intervalo)
    ensures InRange(agora - duracao + i * intervalo)
  {
    var q := TruncDiv(duracao, intervalo);
    if i > 0 {
      var m, d := Abs(duracao), Abs(intervalo);
      assert q == i + (q - i);
      MulMono(i, q, d);
      QuotientBound(m, d);
      assert i * d <= m;
      if intervalo > 0 {
        assert duracao > 0;
        assert i * intervalo == i * d;
      } else {
        assert duracao < 0;
        assert i * intervalo == -(i * d);
      }
    }
  }

  lemma QuotientBound(m: nat, d: nat)
    requires d > 0
    ensures (m / d) * d <= m
  {
  }

  /** Every slot of a schedule whose steps all lie in the range does too. */
  lemma {:induction false} ScheduleInRange(inicio: int, intervalo: int, passos: nat, produtos: seq<string>)
    requires forall i :: 0 <= i < passos ==> InRange(inicio + i * intervalo)
    ensures forall k :: 0 <= k < |Schedule(inicio, intervalo, passos, produtos)| ==>
      InRange(Schedule(inicio, intervalo, passos, produtos)[k].0)
    decreases passos
  {
    if passos > 0 {
      ScheduleInRange(inicio, intervalo, passos - 1, produtos);
      assert InRange(inicio + (passos - 1) * intervalo);
    }
  }

  /** The rows `gerar_dados` writes carry only `datetime` timestamps. */
  lemma RowsInRange(agora: int, duracao: int, intervalo: int, ps: seq<string>, inicial: int, draws: seq<int>)
    requires InRange(agora) && InRange(agora - duracao) && intervalo != 0
    requires |draws| >= RowCount(duracao, intervalo, ps)
    ensures var slots := Schedule(agora - duracao, intervalo, Max(0, Steps(duracao, intervalo)), ps);
      forall k :: 0 <= k < |slots| ==> InRange(Deplete(map[], inicial, slots, draws)[k].timestamp)
  {
    var passos := Max(0, Steps(duracao, intervalo));
    forall i | 0 <= i < passos
      ensures InRange(agora - duracao + i * intervalo)
    {
      StepTimeInRange(agora, duracao, intervalo, i);
    }
    ScheduleInRange(agora - duracao, intervalo, passos, ps);
    DepleteFields(map[], inicial, Schedule(agora - duracao, intervalo, passos, ps), draws);
  }

  /** The outer loop of `gerar_dados`: `passos` steps from `inicio`, with
      every product starting at `inicial`. */
  method GenerateRows(inicio: int, intervalo: int, passos: nat, ps: seq<string>, inicial: int, draws: seq<int>)
    returns (rows: seq<StockRow>)
    requires passos * |ps| <= |draws|
    ensures rows == Deplete(map[], inicial, Schedule(inicio, intervalo, passos, ps), draws)
  {
    var estoque: map<string, int> := map p | p in ps :: inicial;
    rows := [];
    var i := 0;
    while i < passos
      invariant 0 <= i <= passos
      invariant rows == Deplete(map[], inicial, Schedule(inicio, intervalo, i, ps), draws)
      invariant forall p :: p in ps ==> p in estoque && estoque[p] == StockOf(map[], inicial, rows, p)
    {
      StepFits(i, passos, |ps|);
      rows, estoque := GenerateStep(inicio + i * intervalo, ps, inicial, draws, Schedule(inicio, intervalo, i, ps), rows, estoque);
      i := i + 1;
    }
  }

  /** One step of `gerar_dados`: the inner loop over the products, each
      selling its draw and lowering its stock in the dictionary. */
  method GenerateStep(ts: int, ps: seq<string>, inicial: int, draws: seq<int>,
                      done: seq<Slot>, rows0: seq<StockRow>, estoque0: map<string, int>)
    returns (rows: seq<StockRow>, estoque: map<string, int>)
    requires |done| + |ps| <= |draws|
    requires rows0 == Deplete(map[], inicial, done, draws)
    requires forall p :: p in ps ==> p in estoque0 && estoque0[p] == StockOf(map[], inicial, rows0, p)
    ensures rows == Deplete(map[], inicial, done + StepSlots(ts, ps), draws)
    ensures forall p :: p in ps ==> p in estoque && estoque[p] == StockOf(map[], inicial, rows, p)
  {
    rows, estoque := rows0, estoque0;
    var slots := done;
    var j := 0;
    while j < |ps|
      invariant 0 <= j <= |ps|
      invariant slots == done + StepSlots(ts, ps[..j])
      invariant rows == Deplete(map[], inicial, slots, draws)
      invariant forall p :: p in ps ==> p in estoque && estoque[p] == StockOf(map[], inicial, rows, p)
    {
      var p := ps[j];
      var v := draws[|slots|];
      DepleteSnoc(map[], inicial, slots, (ts, p), draws);
      var row := StockRow(ts, p, v, Max(0, estoque[p] - v));
      StockMapSnoc(map[], inicial, ps, estoque, rows, row);
      estoque := estoque[p := row.estoque];
      rows := rows + [row];
      StepSlotsSnoc(ts, ps, j);
      slots := slots + [(ts, p)];
      j := j + 1;
    }
    assert ps[..j] == ps;
  }

  /** The layout of the batch: row i·n + j is product j of step i, stamped
      `inicio + i·intervalo`, and every sale lies in [0, 10]. */
  lemma {:induction false} BatchLayout(inicio: int, intervalo: int, passos: nat, ps: seq<string>, inicial: int, draws: seq<int>)
    requires forall k :: 0 <= k < |draws| ==> 0 <= draws[k] <= MaxVendas
    requires |draws| >= passos * |ps|
    ensures
      var rows := Deplete(map[], inicial, Schedule(inicio, intervalo, passos, ps), draws);
      && |rows| == passos * |ps|
      && (forall i, j :: 0 <= i < passos && 0 <= j < |ps| ==>
            Pos(i, |ps|, j) < |rows| &&
            rows[Pos(i, |ps|, j)].timestamp == inicio + i * intervalo &&
            rows[Pos(i, |ps|, j)].produto == ps[j])
      && (forall k :: 0 <= k < |rows| ==> 0 <= rows[k].vendas <= MaxVendas)
  {
    var slots := Schedule(inicio, intervalo, passos, ps);
    var rows := Deplete(map[], inicial, slots, draws);
    DepleteFields(map[], inicial, slots, draws);
    forall i, j | 0 <= i < passos && 0 <= j < |ps|
      ensures Pos(i, |ps|, j) < |rows| &&
              rows[Pos(i, |ps|, j)].timestamp == inicio + i * intervalo &&
              rows[Pos(i, |ps|, j)].produto == ps[j]
    {
      ScheduleAt(inicio, intervalo, passos, ps, i, j);
    }
  }

  /** The stock of the batch: each row's stock is `max(0, previous - sale)`,
      never negative, never above the initial stock (or 0), and never rising
      along one product's rows. */
  lemma {:induction false} BatchStock(slots: seq<Slot>, inicial: int, draws: seq<int>)
    requires forall k :: 0 <= k < |draws| ==> 0 <= draws[k] <= MaxVendas
    requires |draws| >= |slots|
    ensures
      var rows := Deplete(map[], inicial, slots, draws);
      && Recurrence(map[], inicial, rows)
      && (forall k :: 0 <= k < |rows| ==> 0 <= rows[k].estoque <= Max(0, inicial))
      && (forall j, k :: 0 <= j < k < |rows| && rows[j].produto == rows[k].produto ==>
            rows[k].estoque <= rows[j].estoque)
  {
    var rows := Deplete(map[], inicial, slots, draws);
    DepleteFields(map[], inicial, slots, draws);
    DepleteRecurrence(map[], inicial, slots, draws);
    StockNeverRises(map[], inicial, rows);
  }

  // ---------------------------------------------------------------------------
  // The --produtos option: `[p.strip() for p in s.split(',') if p.strip()]`
  // ---------------------------------------------------------------------------

  /** `str.split(',')`: the comma-free pieces between commas, at least one. */
  function Split(s: string): (parts: seq<string>)
    ensures |parts| >= 1
    ensures forall k :: 0 <= k < |parts| ==> ',' !in parts[k]
    decreases |s|
  {
    if |s| == 0 then [""]
    else
      var rest := Split(s[1..]);
      if s[0] == ',' then [""] + rest
      else [[s[0]] + rest[0]] + rest[1..]
  }

  /** `','.join(parts)`. */
  function Join(parts: seq<string>): string
    decreases |parts|
  {
    if |parts| == 0 then ""
    else if |parts| == 1 then parts[0]
    else parts[0] + "," + Join(parts[1..])
  }

  /** Splitting undoes joining comma-free pieces. */
  lemma {:induction false} SplitJoin(parts: seq<string>)
    requires |parts| >= 1
    requires forall k :: 0 <= k < |parts| ==> ',' !in parts[k]
    ensures Split(Join(parts)) == parts
    decreases |parts|, |parts[0]|
  {
    var p := parts[0];
    if |parts| == 1 {
      SplitPiece(p, "");
      assert p + "" == p;
    } else {
      SplitJoin(parts[1..]);
      var tail := "," + Join(parts[1..]);
      assert Join(parts) == p + tail;
      SplitPiece(p, tail);
      assert tail[1..] == Join(parts[1..]);
      assert Split(tail) == [""] + parts[1..];
      assert p + "" == p;
      assert parts == [p] + parts[1..];
    }
  }

  /** A comma-free prefix glues onto the first piece. */
  lemma {:induction false} SplitPiece(p: string, tail: string)
    requires ',' !in p
    requires |tail| == 0 || tail[0] == ','
    ensures Split(p + tail) == [p + Split(tail)[0]] + Split(tail)[1..]
    decreases |p|
  {
    if |p| == 0 {
      assert p + tail == tail;
      if |tail| > 0 {
        assert Split(tail)[0] == "";
      }
    } else {
      var s := p + tail;
      assert s[0] == p[0] && p[0] != ',';
      assert s[1..] == p[1..] + tail;
      SplitPiece(p[1..], tail);
      var rest := Split(s[1..]);
      assert rest[0] == p[1..] + Split(tail)[0];
      assert [s[0]] + rest[0] == p + Split(tail)[0];
    }
  }

  /** Keeps the stripped pieces that are not empty. */
  function KeepNonEmpty(parts: seq<string>): (r: seq<string>)
    ensures forall k :: 0 <= k < |r| ==> |r[k]| > 0 && Stripped(r[k])
    ensures (forall k :: 0 <= k < |parts| ==> ',' !in parts[k]) ==> forall k :: 0 <= k < |r| ==> ',' !in r[k]
    decreases |parts|
  {
    if |parts| == 0 then []
    else
      var s := Strip(parts[0]);
      var rest := KeepNonEmpty(parts[1..]);
      StripInside(parts[0], ',');
      if |s| > 0 then [s] + rest else rest
  }

  /** The product list given on the command line. */
  function ParseProdutos(s: string): (ps: seq<string>)
    ensures forall k :: 0 <= k < |ps| ==> |ps[k]| > 0 && Stripped(ps[k]) && ',' !in ps[k]
  {
    KeepNonEmpty(Split(s))
  }

  /** A list of non-empty, stripped, comma-free names survives joining with
      commas and parsing back; together with `ParseProdutos`'s contract this
      says the parser yields exactly such names. */
  lemma {:induction false} ParseJoin(ps: seq<string>)
    requires forall k :: 0 <= k < |ps| ==> |ps[k]| > 0 && Stripped(ps[k]) && ',' !in ps[k]
    ensures ParseProdutos(Join(ps)) == ps
  {
    if |ps| == 0 {
      assert Split("") == [""];
      assert Strip("") == "";
    } else {
      SplitJoin(ps);
      KeepAll(ps);
    }
  }

  lemma {:induction false} KeepAll(ps: seq<string>)
    requires forall k :: 0 <= k < |ps| ==> |ps[k]| > 0 && Stripped(ps[k])
    ensures KeepNonEmpty(ps) == ps
    decreases |ps|
  {
    if |ps| > 0 {
      assert ps == [ps[0]] + ps[1..];
      KeepHead(ps[0], ps[1..]);
      StripStripped(ps[0]);
      KeepAll(ps[1..]);
    }
  }

  /** The parser drops the blank items and strips the others, keeping their order. */
  lemma {:induction false} KeepNonEmptyCons(x: string, rest: seq<string>)
    ensures KeepNonEmpty([x] + rest) == (if AllSpace(x) then [] else [Strip(x)]) + KeepNonEmpty(rest)
  {
    KeepHead(x, rest);
    StripEmptyIffBlank(x);
  }

  lemma KeepHead(x: string, rest: seq<string>)
    ensures KeepNonEmpty([x] + rest) == (if |Strip(x)| > 0 then [Strip(x)] else []) + KeepNonEmpty(rest)
  {
    assert ([x] + rest)[1..] == rest;
  }
}
