/** The live-update controller of the three browser scripts: the WebSocket
    handlers of `initWS` (app.js, app_complete.js) and `initWebSocket`
    (app_working.js), the fallback poll, the history refresh, and what each
    delivered snapshot does to the page.

    Sockets, timers and fetches are explicit: the browser's callbacks are
    `Event`s fed to `Step`, and what a handler starts (opening a socket,
    sending a frame, arming a timer, issuing a request) is an `Effect` it
    returns. One socket is current at a time (`state.ws`). */
module Sync {
  import opened Common
  import opened JsValue
  import opened Table
  import opened Series
  import opened Charts
  import opened SnapshotView

  const MaxReconnect: nat := 10
  const ReconnectDelayMs: nat := 2000
  const PingDelayMs: nat := 15000

  datatype ReadyState = Connecting | Open | Closing | Closed

  /** A WebSocket text frame after `JSON.parse`: unparsable, or an object
      with a `type` and a `data` field (None: absent or null). */
  datatype Message = Unparsable | Parsed(msgType: string, data: Option<Snapshot>)

  datatype Event =
    | Start                                        // DOMContentLoaded
    | WsOpened | WsErrored | WsClosed
    | WsMessage(msg: Message)
    | RetryDue                                     // a reconnect timer fires
    | PingDue                                      // a keep-alive timer fires
    | PollTick                                     // the 10 s fallback interval
    | HistoryTick                                  // the 15 s history interval
    | SnapshotFetched(data: Option<Snapshot>)      // `/api/data` answered 2xx (None: JSON null)
    | SnapshotFetchFailed                          // non-2xx or network error
    | HistoryFetched(rows: Option<seq<HistoryRow>>) // `/api/historico` answered 2xx (None: not an array)

  datatype Effect =
    | OpenSocket
    | CloseSocket
    | SendPing
    | SchedulePing(delayMs: nat)
    | ScheduleRetry(delayMs: nat)
    | FetchSnapshot
    | FetchHistory

  datatype Controller = Controller(
    ws: Option<ReadyState>,         // None until the first socket is made
    attempts: nat,                  // `state.reconnectAttempts`
    pendingRetries: nat,            // reconnect timers armed and not yet fired
    status: string,                 // the status element's text
    current: Option<Snapshot>,      // the last snapshot applied (`state.lastData`)
    view: Option<View>,             // what the summary and tables show
    charts: Cache,                  // `state.charts`
    canvases: set<string>)          // the canvases on which a chart can be built

  function Init(canvases: set<string>): Controller {
    Controller(None, 0, 0, "", None, None, map[], canvases)
  }

  /** The controller's invariant: the page shows the current snapshot, the
      reconnect counter never passes its cap, and the chart cache is
      well-formed. */
  predicate Valid(variant: Variant, c: Controller) {
    && c.attempts <= MaxReconnect
    && (c.current.None? <==> c.view.None?)
    && (c.current.Some? ==> c.view.value == Render(variant, c.current.value))
    && CacheOk(c.charts)
    && (variant == AppWorking ==> c.charts == map[] && c.attempts == 0 && c.pendingRetries == 0)
  }

  predicate IsOpen(c: Controller) {
    c.ws == Some(Open)
  }

  /** Applies a snapshot: `updateSnapshot` renders it, rebuilds the pie and
      reloads the history; `updateDashboard` renders it, records it as
      `lastData` and reports that data arrived. */
  function Apply(variant: Variant, c: Controller, snap: Snapshot): (r: (Controller, seq<Effect>))
    requires Valid(variant, c)
    ensures Valid(variant, r.0)
    ensures r.0.current == Some(snap)
    ensures r.0.ws == c.ws && r.0.attempts == c.attempts
  {
    var c1 := c.(current := Some(snap), view := Some(Render(variant, snap)));
    if variant == AppWorking then
      (c1.(status := "Dados carregados!"), [])
    else
      (c1.(charts := BuildPieChart(c.charts, c.canvases, variant, snap.vendasPorProduto)), [FetchHistory])
  }

  /** The close handler: app.js and app_complete.js retry while fewer than
      ten attempts were made, the n-th retry after 2000*n ms, and give up at
      ten; app_working.js only reports polling. */
  function OnClose(variant: Variant, c: Controller): (r: (Controller, seq<Effect>))
    requires Valid(variant, c)
    ensures Valid(variant, r.0)
    ensures r.0.ws == Some(Closed) && r.0.current == c.current
    ensures variant != AppWorking && c.attempts < MaxReconnect ==>
      && r.0.attempts == c.attempts + 1 && r.1 == [ScheduleRetry(ReconnectDelayMs * r.0.attempts)]
      && r.0.pendingRetries == c.pendingRetries + 1
    ensures variant == AppWorking || c.attempts >= MaxReconnect ==>
      r.0.attempts == c.attempts && r.1 == [] && r.0.pendingRetries == c.pendingRetries
  {
    var c1 := c.(ws := Some(Closed));
    if variant == AppWorking then
      (c1.(status := "Modo polling ativo"), [])
    else if c.attempts < MaxReconnect then
      var n := c.attempts + 1;
      (c1.(status := "Reconectando...", attempts := n, pendingRetries := c.pendingRetries + 1),
       [ScheduleRetry(ReconnectDelayMs * n)])
    else
      (c1.(status := "Sem WebSocket (fallback)"), [])
  }

  predicate NoRetry(fx: seq<Effect>) {
    forall k :: 0 <= k < |fx| ==> !fx[k].ScheduleRetry?
  }

  /** The open handler: app.js and app_complete.js reset the counter and
      send a ping; app_working.js only reports the live status. An open
      event for a socket that is not connecting changes nothing. */
  function OnOpen(variant: Variant, c: Controller): (r: (Controller, seq<Effect>))
    requires Valid(variant, c)
    ensures Valid(variant, r.0) && NoRetry(r.1) && r.0.current == c.current
    ensures c.ws == Some(Connecting) ==> IsOpen(r.0)
    ensures c.ws == Some(Connecting) && variant != AppWorking ==> r.0.attempts == 0 && r.1 == [SendPing]
  {
    if c.ws != Some(Connecting) then (c, [])
    else if variant == AppWorking then (c.(ws := Some(Open), status := "Tempo real ativo"), [])
    else (c.(ws := Some(Open), status := "Tempo real", attempts := 0), [SendPing])
  }

  /** The message handler: a parsed message of type "snapshot" with data is
      applied, anything else (including a parse failure) is dropped; app.js
      and app_complete.js then arm a keep-alive ping if the socket is open. */
  function OnMessage(variant: Variant, c: Controller, msg: Message): (r: (Controller, seq<Effect>))
    requires Valid(variant, c)
    ensures Valid(variant, r.0) && NoRetry(r.1) && r.0.attempts == c.attempts && r.0.ws == c.ws
    ensures msg.Parsed? && msg.msgType == "snapshot" && msg.data.Some? ==> r.0.current == msg.data
    ensures !(msg.Parsed? && msg.msgType == "snapshot" && msg.data.Some?) ==> r.0 == c
    ensures SchedulePing(PingDelayMs) in r.1 <==> variant != AppWorking && IsOpen(c)
  {
    var applied :=
      if msg.Parsed? && msg.msgType == "snapshot" && msg.data.Some? then Apply(variant, c, msg.data.value)
      else (c, []);
    var ping := if variant != AppWorking && IsOpen(c) then [SchedulePing(PingDelayMs)] else [];
    (applied.0, applied.1 + ping)
  }

  /** A `/api/data` response: a snapshot is applied and, in app.js and
      app_complete.js, the status reads "Polling"; a JSON null is skipped by
      `updateSnapshot` but makes `updateDashboard` throw, which
      app_working.js reports as a load error. */
  function OnFetched(variant: Variant, c: Controller, data: Option<Snapshot>): (r: (Controller, seq<Effect>))
    requires Valid(variant, c)
    ensures Valid(variant, r.0) && NoRetry(r.1) && r.0.attempts == c.attempts && r.0.ws == c.ws
    ensures r.0.current == if data.Some? then data else c.current
  {
    if data.Some? then
      var (c1, fx) := Apply(variant, c, data.value);
      (if variant == AppWorking then c1 else c1.(status := "Polling"), fx)
    else if variant == AppWorking then (c.(status := "Erro ao carregar dados"), [])
    else (c.(status := "Polling"), [])
  }

  /** One callback. */
  function Step(variant: Variant, c: Controller, e: Event): (r: (Controller, seq<Effect>))
    requires Valid(variant, c)
    ensures Valid(variant, r.0)
    ensures !e.WsClosed? ==> NoRetry(r.1)
    ensures !e.WsClosed? && !e.WsOpened? ==> r.0.attempts == c.attempts
  {
    match e
    case Start =>
      var c1 := c.(ws := Some(Connecting));
      if variant == AppComplete then (c1, [OpenSocket, FetchSnapshot])
      else if variant == App then (c1, [OpenSocket, FetchSnapshot, FetchHistory])
      else (c1.(status := "Carregando..."), [FetchSnapshot, OpenSocket])
    case WsOpened =>
      OnOpen(variant, c)
    case WsErrored =>
      if variant == AppWorking then (c, [])
      else
        var closing := if c.ws == Some(Connecting) || c.ws == Some(Open) then Some(Closing) else c.ws;
        (c.(ws := closing), [CloseSocket])
    case WsClosed =>
      OnClose(variant, c)
    case WsMessage(msg) =>
      OnMessage(variant, c, msg)
    case RetryDue =>
      // `setTimeout(initWS, …)` only runs if a close armed it.
      if c.pendingRetries == 0 then (c, [])
      else (c.(ws := Some(Connecting), pendingRetries := c.pendingRetries - 1), [OpenSocket])
    case PingDue =>
      if IsOpen(c) then (c, [SendPing]) else (c, [])
    case PollTick =>
      if IsOpen(c) then (c, []) else (c, [FetchSnapshot])
    case HistoryTick =>
      if variant == AppWorking then (c, []) else (c, [FetchHistory])
    case SnapshotFetched(data) =>
      OnFetched(variant, c, data)
    case SnapshotFetchFailed =>
      (c.(status := if variant == AppWorking then "Erro ao carregar dados" else "Falha polling"), [])
    case HistoryFetched(rows) =>
      if variant == AppWorking then (c, [])
      else (c.(charts := ApplyHistory(c.charts, c.canvases, variant, rows)), [])
  }

  /** Only a page start or a reconnect timer opens a socket, and a timer
      only when a close armed it. */
  lemma StepOpensSocket(variant: Variant, c: Controller, e: Event)
    requires Valid(variant, c)
    ensures e.RetryDue? ==> (OpenSocket in Step(variant, c, e).1 <==> c.pendingRetries > 0)
    ensures !e.Start? && !e.RetryDue? ==> OpenSocket !in Step(variant, c, e).1
  {
    match e
    case WsClosed =>
      assert Step(variant, c, e) == OnClose(variant, c);
    case WsMessage(msg) =>
      var applied :=
        if msg.Parsed? && msg.msgType == "snapshot" && msg.data.Some? then Apply(variant, c, msg.data.value)
        else (c, []);
      assert OpenSocket !in applied.1;
    case SnapshotFetched(data) =>
      if data.Some? {
        assert OpenSocket !in Apply(variant, c, data.value).1;
      }
    case _ =>
  }

  /** The controller after a sequence of callbacks, and everything they
      started, in order. */
  function Run(variant: Variant, c: Controller, events: seq<Event>): (r: (Controller, seq<Effect>))
    requires Valid(variant, c)
    ensures Valid(variant, r.0)
    decreases |events|
  {
    if |events| == 0 then (c, [])
    else
      var (c1, fx1) := Step(variant, c, events[0]);
      var (c2, fx2) := Run(variant, c1, events[1..]);
      (c2, fx1 + fx2)
  }

  // ---------------------------------------------------------------------------
  // Properties over runs
  // ---------------------------------------------------------------------------

  /** The delays of the reconnect timers among `fx`, in order. */
  function RetryDelays(fx: seq<Effect>): seq<nat>
    decreases |fx|
  {
    if |fx| == 0 then []
    else (if fx[0].ScheduleRetry? then [fx[0].delayMs] else []) + RetryDelays(fx[1..])
  }

  lemma {:induction false} RetryDelaysAppend(a: seq<Effect>, b: seq<Effect>)
    ensures RetryDelays(a + b) == RetryDelays(a) + RetryDelays(b)
    decreases |a|
  {
    if |a| == 0 {
      assert a + b == b;
    } else {
      assert (a + b)[1..] == a[1..] + b;
      assert (a + b)[0] == a[0];
      RetryDelaysAppend(a[1..], b);
    }
  }

  lemma {:induction false} RetryDelaysNone(fx: seq<Effect>)
    requires NoRetry(fx)
    ensures RetryDelays(fx) == []
    decreases |fx|
  {
    if |fx| > 0 {
      RetryDelaysNone(fx[1..]);
    }
  }

  /** One callback arms at most one reconnect timer: only a close below the
      cap does, with delay 2000 times the new counter. */
  lemma StepRetryDelays(variant: Variant, c: Controller, e: Event)
    requires Valid(variant, c) && !e.WsOpened?
    ensures var (c1, fx) := Step(variant, c, e);
      || (RetryDelays(fx) == [] && c1.attempts == c.attempts)
      || (e.WsClosed? && c1.attempts == c.attempts + 1 && RetryDelays(fx) == [ReconnectDelayMs * c1.attempts])
  {
    var (c1, fx) := Step(variant, c, e);
    if e.WsClosed? && variant != AppWorking && c.attempts < MaxReconnect {
      assert fx == [ScheduleRetry(ReconnectDelayMs * c1.attempts)];
      assert RetryDelays(fx) == [ReconnectDelayMs * c1.attempts] + RetryDelays(fx[1..]);
    } else {
      RetryDelaysNone(fx);
    }
  }

  predicate NoOpen(events: seq<Event>) {
    forall k :: 0 <= k < |events| ==> !events[k].WsOpened?
  }

  /** Between two successful opens the reconnect timers are armed with the
      linear delays 2000*(n+1), 2000*(n+2), ... continuing from the counter
      n, never more than 10 - n of them, and the counter only grows. */
  lemma {:induction false} RetriesAreLinearAndCapped(variant: Variant, c: Controller, events: seq<Event>)
    requires Valid(variant, c) && NoOpen(events)
    ensures var (c2, fx) := Run(variant, c, events);
      && var ds := RetryDelays(fx);
      && c2.attempts == c.attempts + |ds|
      && |ds| <= MaxReconnect - c.attempts
      && (forall i :: 0 <= i < |ds| ==> ds[i] == ReconnectDelayMs * (c.attempts + i + 1))
    decreases |events|
  {
    if |events| > 0 {
      var (c1, fx1) := Step(variant, c, events[0]);
      StepRetryDelays(variant, c, events[0]);
      RetriesAreLinearAndCapped(variant, c1, events[1..]);
      var (c2, fx2) := Run(variant, c1, events[1..]);
      RetryDelaysAppend(fx1, fx2);
    }
  }

  /** Once ten reconnects have been attempted, no event short of a
      successful open ever arms another reconnect timer. */
  lemma AtCapNoMoreRetries(variant: Variant, c: Controller, events: seq<Event>)
    requires Valid(variant, c) && NoOpen(events) && c.attempts == MaxReconnect
    ensures RetryDelays(Run(variant, c, events).1) == []
  {
    RetriesAreLinearAndCapped(variant, c, events);
  }

  /** The controller has given up reconnecting: the counter is at its cap,
      no reconnect timer is armed, and the socket is neither connecting nor
      open. */
  predicate GaveUp(c: Controller) {
    && c.attempts == MaxReconnect
    && c.pendingRetries == 0
    && (c.ws.None? || c.ws.value.Closing? || c.ws.value.Closed?)
  }

  predicate NoStart(events: seq<Event>) {
    forall k :: 0 <= k < |events| ==> !events[k].Start?
  }

  /** One callback other than a page start keeps a controller that gave up
      given up, and opens no socket. */
  lemma StepKeepsGaveUp(variant: Variant, c: Controller, e: Event)
    requires Valid(variant, c) && GaveUp(c) && !e.Start?
    ensures GaveUp(Step(variant, c, e).0) && OpenSocket !in Step(variant, c, e).1
  {
    StepOpensSocket(variant, c, e);
    if e.WsClosed? {
      assert Step(variant, c, e) == OnClose(variant, c);
    }
  }

  /** Reconnection stops for good: once ten reconnects have been attempted,
      no timer is armed and the socket is closed, no sequence of callbacks
      short of a new page start opens a socket, arms a reconnect timer or
      resets the counter. */
  lemma {:induction false} GaveUpIsPermanent(variant: Variant, c: Controller, events: seq<Event>)
    requires Valid(variant, c) && GaveUp(c) && NoStart(events)
    ensures var (c2, fx) := Run(variant, c, events);
      && GaveUp(c2) && c2.attempts == MaxReconnect
      && OpenSocket !in fx && RetryDelays(fx) == []
    decreases |events|
  {
    if |events| > 0 {
      var (c1, fx1) := Step(variant, c, events[0]);
      StepKeepsGaveUp(variant, c, events[0]);
      assert NoRetry(fx1) by {
        if events[0].WsClosed? {
          assert fx1 == OnClose(variant, c).1;
        }
      }
      GaveUpIsPermanent(variant, c1, events[1..]);
      var (c2, fx2) := Run(variant, c1, events[1..]);
      RetryDelaysNone(fx1);
      RetryDelaysAppend(fx1, fx2);
    }
  }

  /** The tenth close in a row is the last to arm a timer: after that timer
      fires and the new socket closes again, the controller has given up. */
  lemma CapReachedGivesUp(variant: Variant, c: Controller)
    requires Valid(variant, c) && variant != AppWorking
    requires c.attempts == MaxReconnect - 1 && c.pendingRetries == 0
    ensures var r := Run(variant, c, [WsClosed, RetryDue, WsClosed]);
      && GaveUp(r.0)
      && r.1 == [ScheduleRetry(ReconnectDelayMs * MaxReconnect), OpenSocket]
  {
    var (c1, fx1) := OnClose(variant, c);
    assert Step(variant, c, WsClosed) == (c1, fx1);
    assert c1.attempts == MaxReconnect && c1.pendingRetries == 1;
    var (c2, fx2) := Step(variant, c1, RetryDue);
    assert c2.attempts == MaxReconnect && c2.pendingRetries == 0 && fx2 == [OpenSocket];
    var (c3, fx3) := OnClose(variant, c2);
    assert Step(variant, c2, WsClosed) == (c3, fx3);
    assert GaveUp(c3) && fx3 == [];
    var es := [WsClosed, RetryDue, WsClosed];
    assert es[1..] == [RetryDue, WsClosed];
    assert [RetryDue, WsClosed][1..] == [WsClosed];
    assert [WsClosed][1..] == [];
    assert Run(variant, c2, [WsClosed]) == (c3, fx3 + []);
    assert fx3 + [] == fx3;
    assert Run(variant, c2, [WsClosed]) == (c3, fx3);
    assert [RetryDue, WsClosed][0] == RetryDue;
    assert Run(variant, c1, [RetryDue, WsClosed]) == (c3, fx2 + fx3);
    assert Run(variant, c, es) == (c3, fx1 + (fx2 + fx3));
  }

  /** app_working.js never reconnects, whatever happens. */
  lemma {:induction false} WorkingNeverRetries(c: Controller, events: seq<Event>)
    requires Valid(AppWorking, c)
    ensures RetryDelays(Run(AppWorking, c, events).1) == []
    decreases |events|
  {
    if |events| > 0 {
      var (c1, fx1) := Step(AppWorking, c, events[0]);
      WorkingNeverRetries(c1, events[1..]);
      assert NoRetry(fx1);
      RetryDelaysNone(fx1);
      RetryDelaysAppend(fx1, Run(AppWorking, c1, events[1..]).1);
    }
  }

  function CountClosed(events: seq<Event>): nat
    decreases |events|
  {
    if |events| == 0 then 0 else (if events[0].WsClosed? then 1 else 0) + CountClosed(events[1..])
  }

  /** The reconnect counter alone, callback by callback: a close moves it
      one up to the cap, nothing else (short of an open) touches it. */
  function CounterAfter(variant: Variant, a: nat, events: seq<Event>): nat
    decreases |events|
  {
    if |events| == 0 then a
    else
      var a1 := if events[0].WsClosed? && variant != AppWorking then Min(MaxReconnect, a + 1) else a;
      CounterAfter(variant, a1, events[1..])
  }

  /** The controller's counter follows `CounterAfter` through a run without
      opens. */
  lemma {:induction false} RunCounter(variant: Variant, c: Controller, events: seq<Event>)
    requires Valid(variant, c) && NoOpen(events) && variant != AppWorking
    ensures Run(variant, c, events).0.attempts == CounterAfter(variant, c.attempts, events)
    decreases |events|
  {
    if |events| > 0 {
      var (c1, fx1) := Step(variant, c, events[0]);
      StepAttempts(variant, c, events[0]);
      RunCounter(variant, c1, events[1..]);
    }
  }

  /** Starting at or below the cap, the counter is the number of closes
      added to the start, saturating at the cap. */
  lemma {:induction false} CounterSaturates(variant: Variant, a: nat, events: seq<Event>)
    requires a <= MaxReconnect && variant != AppWorking
    ensures CounterAfter(variant, a, events) == Min(MaxReconnect, a + CountClosed(events))
    decreases |events|
  {
    if |events| > 0 {
      var a1 := if events[0].WsClosed? then Min(MaxReconnect, a + 1) else a;
      CounterSaturates(variant, a1, events[1..]);
    }
  }

  /** Without opens, the counter after a run is the number of closes added
      to where it started, saturating at the cap. */
  lemma CountCloses(variant: Variant, c: Controller, events: seq<Event>)
    requires Valid(variant, c) && NoOpen(events) && variant != AppWorking
    ensures Run(variant, c, events).0.attempts == Min(MaxReconnect, c.attempts + CountClosed(events))
  {
    RunCounter(variant, c, events);
    CounterSaturates(variant, c.attempts, events);
  }

  /** Without an open, a callback moves the counter only on a close, by
      one, up to the cap. */
  lemma StepAttempts(variant: Variant, c: Controller, e: Event)
    requires Valid(variant, c) && !e.WsOpened? && variant != AppWorking
    ensures Step(variant, c, e).0.attempts == if e.WsClosed? then Min(MaxReconnect, c.attempts + 1) else c.attempts
  {
    if e.WsClosed? {
      assert Step(variant, c, e) == OnClose(variant, c);
    }
  }

  /** The snapshot an event delivers for application, if any. */
  function Delivered(e: Event): Option<Snapshot> {
    match e
    case WsMessage(Parsed(t, d)) => if t == "snapshot" then d else None
    case SnapshotFetched(d) => d
    case _ => None
  }

  /** The last snapshot delivered by `events`, or `prior` if none was. */
  function LastDelivered(prior: Option<Snapshot>, events: seq<Event>): Option<Snapshot>
    decreases |events|
  {
    if |events| == 0 then prior
    else
      var last := events[|events| - 1];
      if Delivered(last).Some? then Delivered(last) else LastDelivered(prior, events[..|events| - 1])
  }

  lemma {:induction false} LastDeliveredCons(prior: Option<Snapshot>, events: seq<Event>)
    requires |events| > 0
    ensures LastDelivered(prior, events) ==
      LastDelivered(if Delivered(events[0]).Some? then Delivered(events[0]) else prior, events[1..])
    decreases |events|
  {
    if |events| > 1 {
      var init := events[..|events| - 1];
      LastDeliveredCons(prior, init);
      assert init[1..] == events[1..][..|events[1..]| - 1];
      assert init[0] == events[0];
    } else {
      assert events[..0] == [];
    }
  }

  lemma StepCurrent(variant: Variant, c: Controller, e: Event)
    requires Valid(variant, c)
    ensures Step(variant, c, e).0.current == if Delivered(e).Some? then Delivered(e) else c.current
  {
  }

  /** Last delivered wins: whichever channel delivered it, the page shows
      (and app_working.js records as `lastData`) the last snapshot any
      message or fetch delivered; there is no staleness check. */
  lemma {:induction false} ShowsLastDelivered(variant: Variant, c: Controller, events: seq<Event>)
    requires Valid(variant, c)
    ensures var c2 := Run(variant, c, events).0;
      && c2.current == LastDelivered(c.current, events)
      && (c2.current.Some? ==> c2.view == Some(Render(variant, c2.current.value)))
    decreases |events|
  {
    if |events| > 0 {
      var c1 := Step(variant, c, events[0]).0;
      StepCurrent(variant, c, events[0]);
      ShowsLastDelivered(variant, c1, events[1..]);
      LastDeliveredCons(c.current, events);
    }
  }

  /** A poll tick issues a fetch exactly when the socket is absent or not
      open, and changes nothing else. */
  lemma PollGate(variant: Variant, c: Controller)
    requires Valid(variant, c)
    ensures Step(variant, c, PollTick) == (c, if c.ws.Some? && c.ws.value == Open then [] else [FetchSnapshot])
  {
  }
}
