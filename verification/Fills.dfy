/** Fills under concurrency: reports are processed by any number of threads, the reaper runs beside
    them, and each thread books its delta when it gets to it. A thread that finds a terminal report
    drops the lock before it removes the entry, so other reports can come in between. */
module Fills {
  import opened Models
  import opened Inventory
  import opened InFlight

  /** What happened to the entries, in order. A report that found no entry leaves nothing here. */
  datatype Entry =
    | Registered(id: nat)
    | Recorded(id: nat, cumulative: real, delta: real, side: Side, symbol: U32)

  /** `doomed` holds the removals that a thread or the reaper has decided on and not yet made;
      `unbooked` the reports, with the delta for quantity, that are still to reach the positions. */
  datatype FillState = FillState(
    pending: PendingOrders, doomed: multiset<nat>, unbooked: seq<ExecutionReport>, positions: Positions,
    log: seq<Entry>)

  datatype Event =
    | Register(order: Order, now: real)
    | Report(report: ExecutionReport)
    | Collect(id: nat, now: real)
    | Remove(id: nat)
    | Book(which: nat)

  function Step(s: FillState, e: Event): FillState {
    match e
    case Register(order, now) =>
      s.(pending := s.pending[order.clientId := OrderState(order, now, 0.0)],
         log := s.log + [Registered(order.clientId)])
    case Report(r) =>
      if r.clientId !in s.pending then s
      else
        var delta := r.executedQuantity - s.pending[r.clientId].cumulativeFilled;
        s.(pending := s.pending[r.clientId := s.pending[r.clientId].(cumulativeFilled := r.executedQuantity)],
           doomed := if Drops(r.status) then s.doomed + multiset{r.clientId} else s.doomed,
           unbooked := s.unbooked + [r.(executedQuantity := delta)],
           log := s.log + [Recorded(r.clientId, r.executedQuantity, delta, r.side, r.symbolId)])
    case Collect(id, now) =>
      if id in s.pending && IsGhost(s.pending[id], now) then s.(doomed := s.doomed + multiset{id}) else s
    case Remove(id) =>
      if id in s.doomed then s.(pending := s.pending - {id}, doomed := s.doomed - multiset{id}) else s
    case Book(k) =>
      if k < |s.unbooked| then
        s.(positions := BookReport(s.positions, s.unbooked[k]), unbooked := s.unbooked[..k] + s.unbooked[k + 1..])
      else s
  }

  ghost predicate IsRun(events: seq<Event>, tr: seq<FillState>) {
    && |tr| == |events| + 1
    && forall k {:trigger Step(tr[k], events[k])} :: 0 <= k < |events| ==> tr[k + 1] == Step(tr[k], events[k])
  }

  function Boot(positions: Positions): FillState {
    FillState(map[], multiset{}, [], positions, [])
  }

  /** A report processed with nobody in between: the report, and then the removal if there is one. */
  function ReportAlone(s: FillState, r: ExecutionReport): FillState {
    var t := Step(s, Report(r));
    if r.clientId in s.pending && Drops(r.status) then Step(t, Remove(r.clientId)) else t
  }

  /** That is what ProcessExecution does: the same entries, and the delta it returns is the one that
      is handed out. Removals that others have decided on are left as they were. */
  lemma ReportThenRemove(s: FillState, r: ExecutionReport)
    ensures var t, p := ReportAlone(s, r), Process(s.pending, r);
      && t.pending == p.pending && t.doomed == s.doomed && t.positions == s.positions
      && match p.delta {
        case None => t == s
        case Some(d) =>
          && t.unbooked == s.unbooked + [r.(executedQuantity := d)]
          && t.log == s.log + [Recorded(r.clientId, r.executedQuantity, d, r.side, r.symbolId)]
      }
  {
    if r.clientId in s.pending && Drops(r.status) {
      assert s.doomed + multiset{r.clientId} - multiset{r.clientId} == s.doomed;
    }
  }

  // Fill conservation.

  /** The sum of the deltas handed out for an order. */
  function Handed(log: seq<Entry>, id: nat): real {
    if log == [] then 0.0
    else
      var last := log[|log| - 1];
      Handed(log[..|log| - 1], id) + if last.Recorded? && last.id == id then last.delta else 0.0
  }

  /** The last total recorded for an order since it was last registered. */
  function LastTotal(log: seq<Entry>, id: nat): real {
    if log == [] then 0.0
    else
      var last := log[|log| - 1];
      if last.id != id then LastTotal(log[..|log| - 1], id)
      else if last.Registered? then 0.0
      else last.cumulative
  }

  /** The totals that earlier registrations of the same id had reached. */
  function Settled(log: seq<Entry>, id: nat): real {
    if log == [] then 0.0
    else
      var rest := log[..|log| - 1];
      Settled(rest, id) + if log[|log| - 1] == Registered(id) then LastTotal(rest, id) else 0.0
  }

  function FinalFill(log: seq<Entry>, id: nat): real {
    Settled(log, id) + LastTotal(log, id)
  }

  ghost predicate Telescoped(s: FillState, id: nat) {
    && Handed(s.log, id) == FinalFill(s.log, id)
    && (id in s.pending ==> s.pending[id].cumulativeFilled == LastTotal(s.log, id))
  }

  lemma LogSnoc(log: seq<Entry>, entry: Entry, id: nat)
    ensures Handed(log + [entry], id) ==
      Handed(log, id) + if entry.Recorded? && entry.id == id then entry.delta else 0.0
    ensures LastTotal(log + [entry], id) ==
      if entry.id != id then LastTotal(log, id) else if entry.Registered? then 0.0 else entry.cumulative
    ensures Settled(log + [entry], id) ==
      Settled(log, id) + if entry == Registered(id) then LastTotal(log, id) else 0.0
  {
  }

  /** `t` is `s` with one report on a known order recorded and its delta handed out. */
  ghost predicate Records(s: FillState, r: ExecutionReport, delta: real, t: FillState) {
    && r.clientId in s.pending && s.pending[r.clientId].cumulativeFilled + delta == r.executedQuantity
    && t.pending == s.pending[r.clientId := s.pending[r.clientId].(cumulativeFilled := r.executedQuantity)]
    && t.unbooked == s.unbooked + [r.(executedQuantity := delta)] && t.positions == s.positions
    && t.log == s.log + [Recorded(r.clientId, r.executedQuantity, delta, r.side, r.symbolId)]
  }

  lemma ReportRecords(s: FillState, r: ExecutionReport, t: FillState) returns (delta: real)
    requires t == Step(s, Report(r)) && r.clientId in s.pending
    ensures Records(s, r, delta, t)
  {
    delta := r.executedQuantity - s.pending[r.clientId].cumulativeFilled;
  }

  lemma RecordTelescopes(s: FillState, r: ExecutionReport, delta: real, t: FillState, id: nat)
    requires Telescoped(s, id) && Records(s, r, delta, t)
    ensures Telescoped(t, id)
  {
    LogSnoc(s.log, Recorded(r.clientId, r.executedQuantity, delta, r.side, r.symbolId), id);
  }

  lemma RegisterTelescopes(s: FillState, order: Order, now: real, t: FillState, id: nat)
    requires Telescoped(s, id)
    requires t.pending == s.pending[order.clientId := OrderState(order, now, 0.0)]
    requires t.log == s.log + [Registered(order.clientId)]
    ensures Telescoped(t, id)
  {
    LogSnoc(s.log, Registered(order.clientId), id);
  }

  lemma StepTelescopes(s: FillState, e: Event, t: FillState, id: nat)
    requires Telescoped(s, id) && t == Step(s, e)
    ensures Telescoped(t, id)
  {
    if e.Register? {
      RegisterTelescopes(s, e.order, e.now, t, id);
    } else if e.Report? && e.report.clientId in s.pending {
      var delta := ReportRecords(s, e.report, t);
      RecordTelescopes(s, e.report, delta, t, id);
    } else {
      assert t.log == s.log && t.pending.Keys <= s.pending.Keys;
    }
  }

  /** Fill conservation. In every run, with any interleaving of reports, late removals and the
      reaper, the deltas handed out for an id add up to the last total recorded for it, plus the
      totals its earlier registrations had reached. */
  lemma {:induction false} DeltasTelescope(events: seq<Event>, tr: seq<FillState>, n: nat, id: nat)
    requires IsRun(events, tr) && tr[0] == Boot(tr[0].positions) && n <= |events|
    ensures Telescoped(tr[n], id)
  {
    if n > 0 {
      DeltasTelescope(events, tr, n - 1, id);
      StepTelescopes(tr[n - 1], events[n - 1], tr[n], id);
    }
  }

  function Registrations(log: seq<Entry>, id: nat): nat {
    if log == [] then 0
    else Registrations(log[..|log| - 1], id) + if log[|log| - 1] == Registered(id) then 1 else 0
  }

  /** An order that was never registered has no entry and no fills; one that was registered once has
      no earlier life. */
  ghost predicate LivesOnce(s: FillState, id: nat) {
    && (Registrations(s.log, id) == 0 ==> id !in s.pending && LastTotal(s.log, id) == 0.0)
    && (Registrations(s.log, id) <= 1 ==> Settled(s.log, id) == 0.0)
  }

  lemma StepKeepsLivesOnce(s: FillState, e: Event, t: FillState, id: nat)
    requires LivesOnce(s, id) && t == Step(s, e)
    ensures LivesOnce(t, id)
  {
  }

  lemma {:induction false} OrdersLiveOnce(events: seq<Event>, tr: seq<FillState>, n: nat, id: nat)
    requires IsRun(events, tr) && tr[0] == Boot(tr[0].positions) && n <= |events|
    ensures LivesOnce(tr[n], id)
  {
    if n > 0 {
      OrdersLiveOnce(events, tr, n - 1, id);
      StepKeepsLivesOnce(tr[n - 1], events[n - 1], tr[n], id);
    }
  }

  /** With an id of its own, an order's deltas add up to the last total recorded for it. */
  lemma UniqueOrderConserved(events: seq<Event>, tr: seq<FillState>, n: nat, id: nat)
    requires IsRun(events, tr) && tr[0] == Boot(tr[0].positions) && n <= |events|
    requires Registrations(tr[n].log, id) <= 1
    ensures Handed(tr[n].log, id) == LastTotal(tr[n].log, id)
  {
    DeltasTelescope(events, tr, n, id);
    OrdersLiveOnce(events, tr, n, id);
  }

  // What is reported and what is recorded.

  /** The event before number `n` that is the last report on an order since it was registered, if
      there is one. */
  function LastReport(events: seq<Event>, n: nat, id: nat): (at: Option<nat>)
    requires n <= |events|
    ensures at.Some? ==> at.value < n && events[at.value].Report? && events[at.value].report.clientId == id
  {
    if n == 0 then None
    else match events[n - 1]
      case Register(order, _) => if order.clientId == id then None else LastReport(events, n - 1, id)
      case Report(r) => if r.clientId == id then Some(n - 1) else LastReport(events, n - 1, id)
      case _ => LastReport(events, n - 1, id)
  }

  /** The total that the exchange last reported for an order since it was registered. */
  function ReportedTotal(events: seq<Event>, n: nat, id: nat): real
    requires n <= |events|
  {
    match LastReport(events, n, id)
    case None => 0.0
    case Some(k) => events[k].report.executedQuantity
  }

  lemma RecordedOfStep(s: FillState, e: Event, t: FillState, id: nat)
    requires t == Step(s, e)
    ensures LastTotal(t.log, id) ==
      if e.Register? && e.order.clientId == id then 0.0
      else if e.Report? && e.report.clientId == id && id in s.pending then e.report.executedQuantity
      else LastTotal(s.log, id)
  {
  }

  /** What is recorded is what the last report left behind. */
  lemma {:induction false} RecordedByLastReport(events: seq<Event>, tr: seq<FillState>, n: nat, id: nat)
    requires IsRun(events, tr) && tr[0] == Boot(tr[0].positions) && n <= |events|
    ensures LastTotal(tr[n].log, id) ==
      match LastReport(events, n, id) {
        case None => 0.0
        case Some(k) => if id in tr[k].pending then events[k].report.executedQuantity else LastTotal(tr[k].log, id)
      }
  {
    if n > 0 {
      var e, s, t := events[n - 1], tr[n - 1], tr[n];
      RecordedByLastReport(events, tr, n - 1, id);
      RecordedOfStep(s, e, t, id);
      if e.Report? && e.report.clientId == id {
        assert LastReport(events, n, id) == Some(n - 1);
      } else if e.Register? && e.order.clientId == id {
        assert LastReport(events, n, id) == None;
      } else {
        assert LastReport(events, n, id) == LastReport(events, n - 1, id);
      }
    }
  }

  /** There was no report, the last one found its entry, or it only repeated what was recorded. */
  ghost predicate LastReportCounts(events: seq<Event>, tr: seq<FillState>, n: nat, id: nat)
    requires n <= |events| && |tr| == |events| + 1
  {
    match LastReport(events, n, id)
    case None => true
    case Some(k) => id in tr[k].pending || events[k].report.executedQuantity == LastTotal(tr[k].log, id)
  }

  /** What is recorded for an order is what the exchange last reported for it if and only if that
      report counts. */
  lemma RecordedIsReportedIff(events: seq<Event>, tr: seq<FillState>, n: nat, id: nat)
    requires IsRun(events, tr) && tr[0] == Boot(tr[0].positions) && n <= |events|
    ensures LastTotal(tr[n].log, id) == ReportedTotal(events, n, id) <==> LastReportCounts(events, tr, n, id)
  {
    RecordedByLastReport(events, tr, n, id);
  }

  /** The event ends an order's life: a terminal report, or the reaper finding it past the timeout. */
  predicate Ends(s: FillState, e: Event, id: nat) {
    && id in s.pending
    && (|| (e.Report? && e.report.clientId == id && e.report.status in {Filled, Cancelled})
        || (e.Collect? && e.id == id && e.now - s.pending[id].timestamp > 30.0))
  }

  /** Exactly these events add a removal, one each; carrying a removal out takes one away. */
  lemma DoomedOfStep(s: FillState, e: Event, t: FillState, id: nat)
    requires t == Step(s, e)
    ensures t.doomed[id] == s.doomed[id] + (if Ends(s, e, id) then 1 else 0)
      - if e == Remove(id) && id in s.doomed then 1 else 0
  {
  }

  /** An order is doomed only by a report that it was filled or cancelled, or by the reaper finding it
      more than 30 seconds old. */
  lemma {:induction false} OnlyEndsDoom(events: seq<Event>, tr: seq<FillState>, n: nat, id: nat)
    requires IsRun(events, tr) && tr[0] == Boot(tr[0].positions) && n <= |events|
    requires id in tr[n].doomed
    ensures exists k :: 0 <= k < n && Ends(tr[k], events[k], id)
  {
    DoomedOfStep(tr[n - 1], events[n - 1], tr[n], id);
    if !Ends(tr[n - 1], events[n - 1], id) {
      OnlyEndsDoom(events, tr, n - 1, id);
    }
  }

  ghost predicate AliveBetween(events: seq<Event>, tr: seq<FillState>, m: nat, n: nat, id: nat)
    requires n <= |events| && |tr| == |events| + 1
  {
    forall k :: m <= k < n ==> !Ends(tr[k], events[k], id)
  }

  lemma StaysPending(s: FillState, e: Event, t: FillState, id: nat)
    requires t == Step(s, e) && id in s.pending && id !in s.doomed && !Ends(s, e, id)
    ensures id in t.pending && id !in t.doomed
  {
  }

  lemma {:induction false} AliveMeansPending(events: seq<Event>, tr: seq<FillState>, m: nat, n: nat, id: nat)
    requires IsRun(events, tr) && m <= n <= |events| && id in tr[m].pending && id !in tr[m].doomed
    requires AliveBetween(events, tr, m, n, id)
    ensures id in tr[n].pending && id !in tr[n].doomed
    decreases n
  {
    if m < n {
      AliveMeansPending(events, tr, m, n - 1, id);
      StaysPending(tr[n - 1], events[n - 1], tr[n], id);
    }
  }

  /** No fill is lost while an order lives: if until its last report there was no terminal one and the
      reaper never found it past the timeout, then what is recorded is what was reported. */
  lemma LivingOrdersAreRecorded(events: seq<Event>, tr: seq<FillState>, m: nat, n: nat, id: nat)
    requires IsRun(events, tr) && tr[0] == Boot(tr[0].positions) && m <= n <= |events|
    requires id in tr[m].pending && id !in tr[m].doomed
    requires var at := LastReport(events, n, id);
      at.Some? ==> m <= at.value && AliveBetween(events, tr, m, at.value, id)
    ensures LastTotal(tr[n].log, id) == ReportedTotal(events, n, id)
  {
    RecordedIsReportedIff(events, tr, n, id);
    var at := LastReport(events, n, id);
    if at.Some? {
      AliveMeansPending(events, tr, m, at.value, id);
    }
  }

  /** An order that rests longer than the timeout loses its later fills: the reaper forgets it, the
      report finds no entry, and nothing is recorded, handed out or booked. */
  lemma RestingOrderLosesFills(positions: Positions, order: Order, registered: real, scan: real, r: ExecutionReport)
    returns (events: seq<Event>, tr: seq<FillState>)
    requires scan - registered > REAPER_TIMEOUT && r.clientId == order.clientId
    ensures events == [Register(order, registered), Collect(r.clientId, scan), Remove(r.clientId), Report(r)]
    ensures IsRun(events, tr) && tr[0] == Boot(positions)
    ensures ReportedTotal(events, 4, r.clientId) == r.executedQuantity
    ensures LastTotal(tr[4].log, r.clientId) == Handed(tr[4].log, r.clientId) == 0.0
    ensures tr[4].unbooked == [] && tr[4].positions == positions
  {
    var id := r.clientId;
    events := [Register(order, registered), Collect(id, scan), Remove(id), Report(r)];
    var s0 := Boot(positions);
    var s1 := Step(s0, events[0]);
    var s2 := Step(s1, events[1]);
    var s3 := Step(s2, events[2]);
    tr := [s0, s1, s2, s3, Step(s3, events[3])];
    assert s3.pending == map[] && s3.log == [Registered(id)];
  }

  // Positions.

  function InSymbol(symbol: U32, entrySymbol: U32, side: Side, quantity: real): real {
    if entrySymbol == symbol then Signed(side, quantity) else 0.0
  }

  /** What the log says the position of a symbol has moved by. */
  function LogMove(log: seq<Entry>, symbol: U32): real {
    if log == [] then 0.0
    else
      var last := log[|log| - 1];
      LogMove(log[..|log| - 1], symbol) +
        if last.Recorded? then InSymbol(symbol, last.symbol, last.side, last.delta) else 0.0
  }

  /** What is still to be booked on a symbol. */
  function Unbooked(rs: seq<ExecutionReport>, symbol: U32): real {
    if rs == [] then 0.0
    else
      var last := rs[|rs| - 1];
      Unbooked(rs[..|rs| - 1], symbol) + InSymbol(symbol, last.symbolId, last.side, last.executedQuantity)
  }

  lemma UnbookedSnoc(rs: seq<ExecutionReport>, r: ExecutionReport, symbol: U32)
    ensures Unbooked(rs + [r], symbol) ==
      Unbooked(rs, symbol) + InSymbol(symbol, r.symbolId, r.side, r.executedQuantity)
  {
  }

  lemma {:induction false} UnbookedWithout(rs: seq<ExecutionReport>, k: nat, symbol: U32)
    requires k < |rs|
    ensures Unbooked(rs, symbol) == Unbooked(rs[..k] + rs[k + 1..], symbol) +
      InSymbol(symbol, rs[k].symbolId, rs[k].side, rs[k].executedQuantity)
    decreases |rs|
  {
    var n := |rs| - 1;
    var rest, last := rs[..n], rs[n];
    if k == n {
      assert rs[..k] + rs[k + 1..] == rest;
    } else {
      UnbookedWithout(rest, k, symbol);
      assert rs[..k] + rs[k + 1..] == rest[..k] + rest[k + 1..] + [last];
      UnbookedSnoc(rest[..k] + rest[k + 1..], last, symbol);
    }
  }

  lemma BookingMoves(p: Positions, r: ExecutionReport, symbol: U32)
    ensures PositionOf(BookReport(p, r), symbol) ==
      PositionOf(p, symbol) + InSymbol(symbol, r.symbolId, r.side, r.executedQuantity)
  {
  }

  lemma LogMoveSnoc(log: seq<Entry>, entry: Entry, symbol: U32)
    ensures LogMove(log + [entry], symbol) == LogMove(log, symbol) +
      if entry.Recorded? then InSymbol(symbol, entry.symbol, entry.side, entry.delta) else 0.0
  {
  }

  ghost predicate Booked(s: FillState, boot: Positions, symbol: U32) {
    PositionOf(s.positions, symbol) + Unbooked(s.unbooked, symbol) == PositionOf(boot, symbol) + LogMove(s.log, symbol)
  }

  lemma RecordKeepsBooked(
    s: FillState, r: ExecutionReport, delta: real, t: FillState, boot: Positions, symbol: U32)
    requires Booked(s, boot, symbol) && Records(s, r, delta, t)
    ensures Booked(t, boot, symbol)
  {
    LogMoveSnoc(s.log, Recorded(r.clientId, r.executedQuantity, delta, r.side, r.symbolId), symbol);
    UnbookedSnoc(s.unbooked, r.(executedQuantity := delta), symbol);
  }

  lemma BookingKeepsBooked(s: FillState, k: nat, t: FillState, boot: Positions, symbol: U32)
    requires Booked(s, boot, symbol) && k < |s.unbooked| && t == Step(s, Book(k))
    ensures Booked(t, boot, symbol)
  {
    UnbookedWithout(s.unbooked, k, symbol);
    BookingMoves(s.positions, s.unbooked[k], symbol);
  }

  lemma StepKeepsBooked(s: FillState, e: Event, t: FillState, boot: Positions, symbol: U32)
    requires Booked(s, boot, symbol) && t == Step(s, e)
    ensures Booked(t, boot, symbol)
  {
    if e.Report? && e.report.clientId in s.pending {
      var delta := ReportRecords(s, e.report, t);
      RecordKeepsBooked(s, e.report, delta, t, boot, symbol);
    } else if e.Book? && e.which < |s.unbooked| {
      BookingKeepsBooked(s, e.which, t, boot, symbol);
    } else if e.Register? {
      LogMoveSnoc(s.log, Registered(e.order.clientId), symbol);
    }
  }

  /** Whatever order the deltas are booked in, position and unbooked deltas together are the boot
      position moved by everything that was handed out. */
  lemma {:induction false} NothingLostInBooking(events: seq<Event>, tr: seq<FillState>, n: nat, symbol: U32)
    requires IsRun(events, tr) && tr[0] == Boot(tr[0].positions) && n <= |events|
    ensures Booked(tr[n], tr[0].positions, symbol)
  {
    if n > 0 {
      NothingLostInBooking(events, tr, n - 1, symbol);
      StepKeepsBooked(tr[n - 1], events[n - 1], tr[n], tr[0].positions, symbol);
    }
  }

  /** All reports are on one side, and none takes back what was recorded before. */
  ghost predicate OneSided(events: seq<Event>, tr: seq<FillState>, n: nat, side: Side)
    requires n <= |events| && |tr| == |events| + 1
  {
    forall k :: 0 <= k < n && events[k].Report? ==>
      var r, pending := events[k].report, tr[k].pending;
      r.side == side && (r.clientId in pending ==> pending[r.clientId].cumulativeFilled <= r.executedQuantity)
  }

  ghost predicate OneSidedDeltas(s: FillState, side: Side) {
    forall r :: r in s.unbooked ==> r.side == side && r.executedQuantity >= 0.0
  }

  lemma {:induction false} DeltasStayOneSided(events: seq<Event>, tr: seq<FillState>, n: nat, side: Side)
    requires IsRun(events, tr) && tr[0] == Boot(tr[0].positions) && n <= |events| && OneSided(events, tr, n, side)
    ensures OneSidedDeltas(tr[n], side)
  {
    if n > 0 {
      DeltasStayOneSided(events, tr, n - 1, side);
      assert tr[n] == Step(tr[n - 1], events[n - 1]);
    }
  }

  lemma OneSidedStep(s: FillState, e: Event, t: FillState, side: Side, symbol: U32)
    requires t == Step(s, e) && OneSidedDeltas(s, side)
    ensures side == Buy ==> PositionOf(s.positions, symbol) <= PositionOf(t.positions, symbol)
    ensures side == Sell ==> PositionOf(s.positions, symbol) >= PositionOf(t.positions, symbol)
  {
    if e.Book? && e.which < |s.unbooked| {
      BuysAddSalesSubtract(s.positions, s.unbooked[e.which], symbol);
    }
  }

  /** Buying never lowers a position and selling never raises one: in any run whose reports are all on
      one side with totals that do not fall, whatever the order of booking. */
  lemma {:induction false} OneSidedRunsMoveOneWay(
    events: seq<Event>, tr: seq<FillState>, m: nat, n: nat, side: Side, symbol: U32)
    requires IsRun(events, tr) && tr[0] == Boot(tr[0].positions) && m <= n <= |events|
    requires OneSided(events, tr, n, side)
    ensures side == Buy ==> PositionOf(tr[m].positions, symbol) <= PositionOf(tr[n].positions, symbol)
    ensures side == Sell ==> PositionOf(tr[m].positions, symbol) >= PositionOf(tr[n].positions, symbol)
    decreases n
  {
    if m < n {
      OneSidedRunsMoveOneWay(events, tr, m, n - 1, side, symbol);
      DeltasStayOneSided(events, tr, n - 1, side);
      OneSidedStep(tr[n - 1], events[n - 1], tr[n], side, symbol);
    }
  }

  /** The side and the symbol of an order, as all its reports give them. */
  datatype Terms = Terms(side: Side, symbol: U32)

  ghost predicate Consistent(log: seq<Entry>, terms: map<nat, Terms>) {
    forall i :: 0 <= i < |log| && log[i].Recorded? ==>
      log[i].id in terms && terms[log[i].id] == Terms(log[i].side, log[i].symbol)
  }

  ghost predicate Distinct(ids: seq<nat>) {
    forall i, j :: 0 <= i < j < |ids| ==> ids[i] != ids[j]
  }

  /** Order by order: the signed deltas of the orders in `ids` on a symbol. */
  function OrderMove(log: seq<Entry>, terms: map<nat, Terms>, ids: seq<nat>, symbol: U32): real
    requires forall i :: 0 <= i < |ids| ==> ids[i] in terms
  {
    if ids == [] then 0.0
    else
      var id := ids[|ids| - 1];
      OrderMove(log, terms, ids[..|ids| - 1], symbol) +
        InSymbol(symbol, terms[id].symbol, terms[id].side, Handed(log, id))
  }

  lemma SignedAdds(side: Side, a: real, b: real)
    ensures Signed(side, a + b) == Signed(side, a) + Signed(side, b)
  {
  }

  /** One more entry moves the sum by its own delta if its order is in the list, and by nothing else. */
  lemma {:induction false} OrderMoveSnoc(
    log: seq<Entry>, entry: Entry, terms: map<nat, Terms>, ids: seq<nat>, symbol: U32)
    requires forall i :: 0 <= i < |ids| ==> ids[i] in terms
    requires Distinct(ids)
    requires entry.Recorded? ==> entry.id in terms && terms[entry.id] == Terms(entry.side, entry.symbol)
    ensures OrderMove(log + [entry], terms, ids, symbol) == OrderMove(log, terms, ids, symbol) +
      if entry.Recorded? && entry.id in ids then InSymbol(symbol, entry.symbol, entry.side, entry.delta) else 0.0
    decreases |ids|
  {
    if ids != [] {
      var n := |ids| - 1;
      OrderMoveSnoc(log, entry, terms, ids[..n], symbol);
      LogSnoc(log, entry, ids[n]);
      assert ids == ids[..n] + [ids[n]];
      if entry.Recorded? && entry.id == ids[n] {
        assert entry.id !in ids[..n];
        SignedAdds(entry.side, Handed(log, entry.id), entry.delta);
      }
    }
  }

  lemma {:induction false} NoOrdersNoMove(terms: map<nat, Terms>, ids: seq<nat>, symbol: U32)
    requires forall i :: 0 <= i < |ids| ==> ids[i] in terms
    ensures OrderMove([], terms, ids, symbol) == 0.0
    decreases |ids|
  {
    if ids != [] {
      NoOrdersNoMove(terms, ids[..|ids| - 1], symbol);
    }
  }

  /** Summing report by report and summing order by order agree. */
  lemma {:induction false} MoveByOrder(log: seq<Entry>, terms: map<nat, Terms>, ids: seq<nat>, symbol: U32)
    requires forall i :: 0 <= i < |ids| ==> ids[i] in terms
    requires Distinct(ids) && Consistent(log, terms)
    requires forall i :: 0 <= i < |log| && log[i].Recorded? ==> log[i].id in ids
    ensures LogMove(log, symbol) == OrderMove(log, terms, ids, symbol)
    decreases |log|
  {
    if log == [] {
      NoOrdersNoMove(terms, ids, symbol);
    } else {
      var n := |log| - 1;
      MoveByOrder(log[..n], terms, ids, symbol);
      OrderMoveSnoc(log[..n], log[n], terms, ids, symbol);
      assert log == log[..n] + [log[n]];
    }
  }

  /** The signed final fills of the orders in `ids` on a symbol. */
  function FillMove(log: seq<Entry>, terms: map<nat, Terms>, ids: seq<nat>, symbol: U32): real
    requires forall i :: 0 <= i < |ids| ==> ids[i] in terms
  {
    if ids == [] then 0.0
    else
      var id := ids[|ids| - 1];
      FillMove(log, terms, ids[..|ids| - 1], symbol) +
        InSymbol(symbol, terms[id].symbol, terms[id].side, LastTotal(log, id))
  }

  lemma {:induction false} HandedIsFilled(
    events: seq<Event>, tr: seq<FillState>, n: nat, terms: map<nat, Terms>, ids: seq<nat>, symbol: U32)
    requires IsRun(events, tr) && tr[0] == Boot(tr[0].positions) && n <= |events|
    requires forall i :: 0 <= i < |ids| ==> ids[i] in terms
    requires forall i :: 0 <= i < |ids| ==> Registrations(tr[n].log, ids[i]) <= 1
    ensures OrderMove(tr[n].log, terms, ids, symbol) == FillMove(tr[n].log, terms, ids, symbol)
    decreases |ids|
  {
    if ids != [] {
      HandedIsFilled(events, tr, n, terms, ids[..|ids| - 1], symbol);
      UniqueOrderConserved(events, tr, n, ids[|ids| - 1]);
    }
  }

  /** Positions are right. Once every delta has been booked, each position is its boot value plus
      the signed last totals of its orders: for any interleaving and any order of booking. */
  lemma PositionsAreFills(
    events: seq<Event>, tr: seq<FillState>, n: nat, terms: map<nat, Terms>, ids: seq<nat>, symbol: U32)
    requires IsRun(events, tr) && tr[0] == Boot(tr[0].positions) && n <= |events|
    requires forall i :: 0 <= i < |ids| ==> ids[i] in terms
    requires Distinct(ids) && Consistent(tr[n].log, terms)
    requires forall i :: 0 <= i < |tr[n].log| && tr[n].log[i].Recorded? ==> tr[n].log[i].id in ids
    requires forall i :: 0 <= i < |ids| ==> Registrations(tr[n].log, ids[i]) <= 1
    requires tr[n].unbooked == []
    ensures PositionOf(tr[n].positions, symbol) ==
      PositionOf(tr[0].positions, symbol) + FillMove(tr[n].log, terms, ids, symbol)
  {
    NothingLostInBooking(events, tr, n, symbol);
    MoveByOrder(tr[n].log, terms, ids, symbol);
    HandedIsFilled(events, tr, n, terms, ids, symbol);
  }

  /** The signed totals that the exchange last reported for the orders in `ids` on a symbol. */
  function ReportedMove(events: seq<Event>, n: nat, terms: map<nat, Terms>, ids: seq<nat>, symbol: U32): real
    requires n <= |events| && forall i :: 0 <= i < |ids| ==> ids[i] in terms
  {
    if ids == [] then 0.0
    else
      var id := ids[|ids| - 1];
      ReportedMove(events, n, terms, ids[..|ids| - 1], symbol) +
        InSymbol(symbol, terms[id].symbol, terms[id].side, ReportedTotal(events, n, id))
  }

  lemma {:induction false} FilledIsReported(
    events: seq<Event>, tr: seq<FillState>, n: nat, terms: map<nat, Terms>, ids: seq<nat>, symbol: U32)
    requires IsRun(events, tr) && tr[0] == Boot(tr[0].positions) && n <= |events|
    requires forall i :: 0 <= i < |ids| ==> ids[i] in terms
    requires forall i :: 0 <= i < |ids| ==> LastReportCounts(events, tr, n, ids[i])
    ensures FillMove(tr[n].log, terms, ids, symbol) == ReportedMove(events, n, terms, ids, symbol)
    decreases |ids|
  {
    if ids != [] {
      FilledIsReported(events, tr, n, terms, ids[..|ids| - 1], symbol);
      RecordedIsReportedIff(events, tr, n, ids[|ids| - 1]);
    }
  }

  /** Positions agree with the exchange: if moreover the last report on every order counts, each
      position is its boot value plus the signed totals that the exchange last reported. */
  lemma PositionsAreReported(
    events: seq<Event>, tr: seq<FillState>, n: nat, terms: map<nat, Terms>, ids: seq<nat>, symbol: U32)
    requires IsRun(events, tr) && tr[0] == Boot(tr[0].positions) && n <= |events|
    requires forall i :: 0 <= i < |ids| ==> ids[i] in terms
    requires Distinct(ids) && Consistent(tr[n].log, terms)
    requires forall i :: 0 <= i < |tr[n].log| && tr[n].log[i].Recorded? ==> tr[n].log[i].id in ids
    requires forall i :: 0 <= i < |ids| ==> Registrations(tr[n].log, ids[i]) <= 1
    requires tr[n].unbooked == []
    requires forall i :: 0 <= i < |ids| ==> LastReportCounts(events, tr, n, ids[i])
    ensures PositionOf(tr[n].positions, symbol) ==
      PositionOf(tr[0].positions, symbol) + ReportedMove(events, n, terms, ids, symbol)
  {
    PositionsAreFills(events, tr, n, terms, ids, symbol);
    FilledIsReported(events, tr, n, terms, ids, symbol);
  }
}
