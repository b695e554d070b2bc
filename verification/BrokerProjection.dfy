/** The broker projection of packages/broker: the two projection stores, the
    reconciliation service that writes them and the gate that reads them.

    Every store method is one transaction, so one transition of a `Projection`.
    A run is any sequence of transactions, which covers every interleaving of
    the periodic reconcile, the stream consumer, the API's direct apply, the
    runtime's shutdown and the deletion of the rows. */
module BrokerProjection {

  import opened Common

  datatype BrokerState = NotConfigured | Unknown | Reconciling | Reconciled | Divergent

  datatype Account = Account(
    accountId: string, equity: real, lastEquity: real,
    tradingBlocked: bool, accountBlocked: bool, tradeSuspended: bool)

  datatype Position = Position(assetId: string, symbol: string, quantity: real)

  datatype Order = Order(brokerOrderId: string, clientOrderId: string, status: string, filled: real)

  datatype TradeUpdate = TradeUpdate(order: Order, occurredAt: int)

  datatype Snapshot = Snapshot(
    account: Account, positions: seq<Position>, openOrders: seq<Order>, reconciledAt: int)

  datatype SyncStatus = SyncStatus(
    state: BrokerState,
    lastReconciledAt: Option<int>,
    lastStreamEventAt: Option<int>,
    streamConnected: bool,
    generation: nat,
    divergenceCount: nat,
    failureReason: Option<string>)

  /** The rows of one workspace; the status row may be absent. */
  datatype Projection = Projection(
    row: Option<SyncStatus>,
    account: Option<Account>,
    positions: map<string, Position>,
    orders: map<string, Order>)

  const FRESH := SyncStatus(NotConfigured, None, None, false, 0, 0, None)
  const EMPTY := Projection(None, None, map[], map[])
  const DISCONNECTED := "Alpaca trade_updates stream disconnected."
  const MAXIMUM_AGE := 90

  function StatusOf(p: Projection): SyncStatus {
    match p.row
    case None => FRESH
    case Some(status) => status
  }

  // ----- Snapshots -----

  function PositionsById(ps: seq<Position>): map<string, Position> {
    if ps == [] then map[] else
    PositionsById(ps[..|ps| - 1])[ps[|ps| - 1].assetId := ps[|ps| - 1]]
  }

  function OrdersById(os: seq<Order>): map<string, Order> {
    if os == [] then map[] else
    OrdersById(os[..|os| - 1])[os[|os| - 1].brokerOrderId := os[|os| - 1]]
  }

  function SymmetricDifference<T>(a: set<T>, b: set<T>): nat {
    |(a - b) + (b - a)|
  }

  function Divergence(p: Projection, s: Snapshot): nat {
    SymmetricDifference(p.positions.Keys, PositionsById(s.positions).Keys)
    + SymmetricDifference(p.orders.Keys, OrdersById(s.openOrders).Keys)
  }

  /** The primary and unique keys of the position and order tables. */
  predicate KeysAreUnique(s: Snapshot) {
    && (forall i, j :: 0 <= i < j < |s.positions| ==> s.positions[i].assetId != s.positions[j].assetId)
    && (forall i, j :: 0 <= i < j < |s.openOrders| ==>
          && s.openOrders[i].brokerOrderId != s.openOrders[j].brokerOrderId
          && s.openOrders[i].clientOrderId != s.openOrders[j].clientOrderId)
  }

  /** Two positions share an asset id, or two orders a broker id or a client id. */
  ghost predicate RepeatsAKey(s: Snapshot) {
    || (exists i, j :: 0 <= i < j < |s.positions| && s.positions[i].assetId == s.positions[j].assetId)
    || (exists i, j :: 0 <= i < j < |s.openOrders|
          && (s.openOrders[i].brokerOrderId == s.openOrders[j].brokerOrderId
              || s.openOrders[i].clientOrderId == s.openOrders[j].clientOrderId))
  }

  lemma KeysMeans(s: Snapshot)
    ensures KeysAreUnique(s) <==> !RepeatsAKey(s)
  {
  }

  /** No other order row carries the updated order's client id. */
  predicate ClientIdIsFree(orders: map<string, Order>, o: Order) {
    forall id :: id in orders && id != o.brokerOrderId ==> orders[id].clientOrderId != o.clientOrderId
  }

  // ----- What the maps of a snapshot hold -----

  /** The map holds exactly the listed orders, each under its broker id. */
  ghost predicate HoldsOrders(m: map<string, Order>, os: seq<Order>) {
    forall id, o :: id in m && m[id] == o <==> o in os && o.brokerOrderId == id
  }

  /** The map holds exactly the listed positions, each under its asset id. */
  ghost predicate HoldsPositions(m: map<string, Position>, ps: seq<Position>) {
    forall id, x :: id in m && m[id] == x <==> x in ps && x.assetId == id
  }

  lemma {:induction false} OrdersByIdHolds(os: seq<Order>)
    requires forall i, j :: 0 <= i < j < |os| ==> os[i].brokerOrderId != os[j].brokerOrderId
    ensures HoldsOrders(OrdersById(os), os)
    decreases |os|
  {
    if os != [] {
      var front, last := os[..|os| - 1], os[|os| - 1];
      OrdersByIdHolds(front);
      assert os == front + [last];
      assert forall o | o in front :: o.brokerOrderId != last.brokerOrderId;
    }
  }

  lemma {:induction false} PositionsByIdHolds(ps: seq<Position>)
    requires forall i, j :: 0 <= i < j < |ps| ==> ps[i].assetId != ps[j].assetId
    ensures HoldsPositions(PositionsById(ps), ps)
    decreases |ps|
  {
    if ps != [] {
      var front, last := ps[..|ps| - 1], ps[|ps| - 1];
      PositionsByIdHolds(front);
      assert ps == front + [last];
      assert forall x | x in front :: x.assetId != last.assetId;
    }
  }

  /** Of orders with one broker id the last wins. */
  ghost predicate HoldsLastOrders(m: map<string, Order>, os: seq<Order>) {
    && (forall id :: id in m ==> m[id] in os && m[id].brokerOrderId == id)
    && (forall i | 0 <= i < |os| :: os[i].brokerOrderId in m)
    && (forall i | 0 <= i < |os| :: IsLastOrder(os, i) ==> m[os[i].brokerOrderId] == os[i])
  }

  predicate IsLastOrder(os: seq<Order>, i: int)
    requires 0 <= i < |os|
  {
    forall j | i < j < |os| :: os[j].brokerOrderId != os[i].brokerOrderId
  }

  ghost predicate HoldsLastPositions(m: map<string, Position>, ps: seq<Position>) {
    && (forall id :: id in m ==> m[id] in ps && m[id].assetId == id)
    && (forall i | 0 <= i < |ps| :: ps[i].assetId in m)
    && (forall i | 0 <= i < |ps| :: IsLastPosition(ps, i) ==> m[ps[i].assetId] == ps[i])
  }

  predicate IsLastPosition(ps: seq<Position>, i: int)
    requires 0 <= i < |ps|
  {
    forall j | i < j < |ps| :: ps[j].assetId != ps[i].assetId
  }

  lemma {:induction false} OrdersByIdHoldsLast(os: seq<Order>)
    ensures HoldsLastOrders(OrdersById(os), os)
    decreases |os|
  {
    if os != [] {
      var front, last := os[..|os| - 1], os[|os| - 1];
      OrdersByIdHoldsLast(front);
      assert os == front + [last];
      forall i | 0 <= i < |front| && IsLastOrder(os, i)
        ensures IsLastOrder(front, i) && os[i].brokerOrderId != last.brokerOrderId
      {
        forall j | i < j < |front| ensures front[j].brokerOrderId != front[i].brokerOrderId {
          assert os[j] == front[j];
        }
      }
    }
  }

  lemma {:induction false} PositionsByIdHoldsLast(ps: seq<Position>)
    ensures HoldsLastPositions(PositionsById(ps), ps)
    decreases |ps|
  {
    if ps != [] {
      var front, last := ps[..|ps| - 1], ps[|ps| - 1];
      PositionsByIdHoldsLast(front);
      assert ps == front + [last];
      forall i | 0 <= i < |front| && IsLastPosition(ps, i)
        ensures IsLastPosition(front, i) && ps[i].assetId != last.assetId
      {
        forall j | i < j < |front| ensures front[j].assetId != front[i].assetId {
          assert ps[j] == front[j];
        }
      }
    }
  }

  lemma HeldOrdersAreOne(m: map<string, Order>, w: map<string, Order>, os: seq<Order>)
    requires HoldsOrders(m, os) && HoldsOrders(w, os)
    ensures m == w
  {
    forall id | id in m ensures id in w && w[id] == m[id] {
      var o := m[id];
      assert o in os && o.brokerOrderId == id;
    }
    forall id | id in w ensures id in m && m[id] == w[id] {
      var o := w[id];
      assert o in os && o.brokerOrderId == id;
    }
  }

  lemma HeldPositionsAreOne(m: map<string, Position>, w: map<string, Position>, ps: seq<Position>)
    requires HoldsPositions(m, ps) && HoldsPositions(w, ps)
    ensures m == w
  {
    forall id | id in m ensures id in w && w[id] == m[id] {
      var x := m[id];
      assert x in ps && x.assetId == id;
    }
    forall id | id in w ensures id in m && m[id] == w[id] {
      var x := w[id];
      assert x in ps && x.assetId == id;
    }
  }

  // ----- What a divergence counts -----

  function OrderIds(os: seq<Order>): set<string> {
    set i | 0 <= i < |os| :: os[i].brokerOrderId
  }

  function AssetIds(ps: seq<Position>): set<string> {
    set i | 0 <= i < |ps| :: ps[i].assetId
  }

  /** The elements of exactly one of the two sets. */
  function InExactlyOne<T>(a: set<T>, b: set<T>): set<T> {
    set x | x in a + b && !(x in a && x in b)
  }

  lemma OrderKeys(os: seq<Order>)
    ensures OrdersById(os).Keys == OrderIds(os)
  {
    OrdersByIdHoldsLast(os);
    forall id | id in OrdersById(os) ensures id in OrderIds(os) {
      var i :| 0 <= i < |os| && os[i] == OrdersById(os)[id];
    }
  }

  lemma PositionKeys(ps: seq<Position>)
    ensures PositionsById(ps).Keys == AssetIds(ps)
  {
    PositionsByIdHoldsLast(ps);
    forall id | id in PositionsById(ps) ensures id in AssetIds(ps) {
      var i :| 0 <= i < |ps| && ps[i] == PositionsById(ps)[id];
    }
  }

  lemma DifferenceCounts<T>(a: set<T>, b: set<T>)
    ensures SymmetricDifference(a, b) == |InExactlyOne(a, b)|
  {
    assert (a - b) + (b - a) == InExactlyOne(a, b);
  }

  /** The divergence of a snapshot is the number of positions and of orders that are either
      stored or reported, but not both. */
  lemma DivergenceCounts(p: Projection, s: Snapshot)
    ensures Divergence(p, s) ==
      |InExactlyOne(p.positions.Keys, AssetIds(s.positions))| + |InExactlyOne(p.orders.Keys, OrderIds(s.openOrders))|
  {
    OrderKeys(s.openOrders);
    PositionKeys(s.positions);
    DifferenceCounts(p.positions.Keys, AssetIds(s.positions));
    DifferenceCounts(p.orders.Keys, OrderIds(s.openOrders));
  }

  // ----- Transactions -----

  datatype Tx =
    | MarkState(state: BrokerState, reason: Option<string>)
    | SetStream(connected: bool)
    | Apply(snapshot: Snapshot)
    | Update(update: TradeUpdate)
    | DeleteRows

  /** Postgres rolls back a transaction that would break a unique constraint. */
  predicate Commits(p: Projection, tx: Tx) {
    match tx
    case Apply(s) => KeysAreUnique(s)
    case Update(u) => ClientIdIsFree(p.orders, u.order)
    case _ => true
  }

  function PostgresStep(p: Projection, tx: Tx): Projection {
    if !Commits(p, tx) then p else
    var status := StatusOf(p);
    match tx
    case MarkState(state, reason) => p.(row := Some(status.(state := state, failureReason := reason)))
    case SetStream(connected) =>
      if !connected && status.state == Reconciled
      then p.(row := Some(status.(streamConnected := false, state := Unknown, failureReason := Some(DISCONNECTED))))
      else p.(row := Some(status.(streamConnected := connected)))
    case Apply(s) =>
      Projection(
        Some(status.(state := Reconciled,
                     lastReconciledAt := Some(s.reconciledAt),
                     generation := status.generation + 1,
                     divergenceCount := status.divergenceCount + Divergence(p, s),
                     failureReason := None)),
        Some(s.account), PositionsById(s.positions), OrdersById(s.openOrders))
    case Update(u) =>
      p.(orders := p.orders[u.order.brokerOrderId := u.order],
         row := Some(status.(lastStreamEventAt := Some(u.occurredAt), streamConnected := true)))
    case DeleteRows => EMPTY
  }

  /** The in-memory store has no constraints, moves any state to UNKNOWN on a
      disconnect and forgets the last stream event when it applies a snapshot. */
  function MemoryStep(m: Projection, tx: Tx): Projection {
    var status := StatusOf(m);
    match tx
    case MarkState(state, reason) => m.(row := Some(status.(state := state, failureReason := reason)))
    case SetStream(connected) =>
      m.(row := Some(status.(streamConnected := connected,
                             state := if connected then status.state else Unknown)))
    case Apply(s) =>
      Projection(
        Some(SyncStatus(Reconciled, Some(s.reconciledAt), None, status.streamConnected,
                        status.generation + 1, status.divergenceCount + Divergence(m, s), None)),
        Some(s.account), PositionsById(s.positions), OrdersById(s.openOrders))
    case Update(u) =>
      m.(orders := m.orders[u.order.brokerOrderId := u.order],
         row := Some(status.(lastStreamEventAt := Some(u.occurredAt), streamConnected := true)))
    case DeleteRows => EMPTY
  }

  function Run(p: Projection, txs: seq<Tx>): Projection {
    if txs == [] then p else PostgresStep(Run(p, txs[..|txs| - 1]), txs[|txs| - 1])
  }

  lemma {:induction false} RunAppend(p: Projection, txs: seq<Tx>, more: seq<Tx>)
    ensures Run(p, txs + more) == Run(Run(p, txs), more)
    decreases |more|
  {
    if more == [] {
      assert txs + more == txs;
    } else {
      var init := more[..|more| - 1];
      RunAppend(p, txs, init);
      RunSnoc(p, txs + init, more[|more| - 1]);
      assert txs + more == txs + init + [more[|more| - 1]];
    }
  }

  // ----- The gate -----

  datatype Verdict =
    | Open | NotReconciled(state: BrokerState) | NeverReconciled | Stale | StreamDown | NoAccount | AccountBlocked

  predicate IsBlocked(a: Account) {
    a.accountBlocked || a.tradingBlocked || a.tradeSuspended
  }

  /** `BrokerExecutionGate.evaluate` on a status and an account it has read. */
  function Evaluate(status: SyncStatus, account: Option<Account>, now: int, maximumAge: int): Verdict {
    if status.state != Reconciled then NotReconciled(status.state)
    else if status.lastReconciledAt.None? then NeverReconciled
    else if now - status.lastReconciledAt.value > maximumAge then Stale
    else if !status.streamConnected then StreamDown
    else if account.None? then NoAccount
    else if IsBlocked(account.value) then AccountBlocked
    else Open
  }

  function Gate(p: Projection, now: int, maximumAge: int): Verdict {
    Evaluate(StatusOf(p), p.account, now, maximumAge)
  }

  // ----- What must have happened before the gate is open -----

  /** The only states the program's callers ever mark are RECONCILING and UNKNOWN. */
  predicate IsProgramTx(tx: Tx) {
    tx.MarkState? ==> tx.state == Reconciling || tx.state == Unknown
  }

  predicate IsProgramRun(txs: seq<Tx>) {
    forall i :: 0 <= i < |txs| ==> IsProgramTx(txs[i])
  }

  predicate Committed(txs: seq<Tx>, i: int)
    requires 0 <= i < |txs|
  {
    Commits(Run(EMPTY, txs[..i]), txs[i])
  }

  predicate AppliedAt(txs: seq<Tx>, i: int)
    requires 0 <= i < |txs|
  {
    txs[i].Apply? && Committed(txs, i)
  }

  /** A transaction that may move the state: a mark, a disconnect, a deletion or
      an apply. A connect, an update and a rolled back transaction leave it. */
  predicate ChangesState(txs: seq<Tx>, i: int)
    requires 0 <= i < |txs|
  {
    AppliedAt(txs, i) || txs[i].MarkState? || txs[i].DeleteRows? || txs[i] == SetStream(false)
  }

  /** The latest state-changing transaction is the apply at `i`. */
  ghost predicate LastChangeIsApply(txs: seq<Tx>, i: int) {
    0 <= i < |txs| && AppliedAt(txs, i) && forall j :: i < j < |txs| ==> !ChangesState(txs, j)
  }

  lemma PrefixFacts(txs: seq<Tx>, i: int)
    requires 0 <= i < |txs| - 1
    ensures var init := txs[..|txs| - 1];
      && init[i] == txs[i] && init[..i] == txs[..i]
      && (Committed(init, i) <==> Committed(txs, i))
      && (AppliedAt(init, i) <==> AppliedAt(txs, i))
      && (ChangesState(init, i) <==> ChangesState(txs, i))
  {
    assert txs[..|txs| - 1][..i] == txs[..i];
  }

  lemma LastChangeStep(txs: seq<Tx>, i: int)
    requires txs != []
    ensures var n := |txs| - 1;
      LastChangeIsApply(txs, i) <==>
        if ChangesState(txs, n) then i == n && AppliedAt(txs, n) else LastChangeIsApply(txs[..n], i)
  {
    var n := |txs| - 1;
    forall j | 0 <= j < n
      ensures ChangesState(txs[..n], j) <==> ChangesState(txs, j)
      ensures AppliedAt(txs[..n], j) <==> AppliedAt(txs, j)
    {
      PrefixFacts(txs, j);
    }
  }

  /** One transaction's effect on the fields that the gate reads from an apply. */
  lemma StateAfterStep(p: Projection, tx: Tx)
    requires IsProgramTx(tx)
    ensures var q := PostgresStep(p, tx); var s := StatusOf(p); var t := StatusOf(q);
      if tx.Apply? && Commits(p, tx) then
        t.state == Reconciled && q.account == Some(tx.snapshot.account)
        && t.lastReconciledAt == Some(tx.snapshot.reconciledAt)
      else if tx.MarkState? || tx.DeleteRows? || tx == SetStream(false) then
        t.state != Reconciled
      else
        t.state == s.state && q.account == p.account && t.lastReconciledAt == s.lastReconciledAt
  {
  }

  /** The state is RECONCILED exactly when the latest state-changing transaction was
      a successful apply; the projection then also holds that apply's account and time. */
  lemma {:induction false} ReconciledIffLastChangeIsApply(txs: seq<Tx>)
    requires IsProgramRun(txs)
    ensures StatusOf(Run(EMPTY, txs)).state == Reconciled <==> exists i :: LastChangeIsApply(txs, i)
    ensures forall i :: LastChangeIsApply(txs, i) ==>
      && Run(EMPTY, txs).account == Some(txs[i].snapshot.account)
      && StatusOf(Run(EMPTY, txs)).lastReconciledAt == Some(txs[i].snapshot.reconciledAt)
    decreases |txs|
  {
    if txs != [] {
      var n := |txs| - 1;
      var before := Run(EMPTY, txs[..n]);
      ReconciledIffLastChangeIsApply(txs[..n]);
      assert Run(EMPTY, txs) == PostgresStep(before, txs[n]);
      StateAfterStep(before, txs[n]);
      forall i
        ensures LastChangeIsApply(txs, i) <==>
          if ChangesState(txs, n) then i == n && AppliedAt(txs, n) else LastChangeIsApply(txs[..n], i)
      {
        LastChangeStep(txs, i);
      }
      if AppliedAt(txs, n) { assert LastChangeIsApply(txs, n); }
    }
  }

  predicate Reconnects(txs: seq<Tx>, i: int)
    requires 0 <= i < |txs|
  {
    txs[i] == SetStream(true) || (txs[i].Update? && Committed(txs, i))
  }

  /** If the stream is connected, it was connected after every earlier disconnect or deletion. */
  lemma {:induction false} ConnectedWasReconnected(txs: seq<Tx>, i: int)
    requires 0 <= i < |txs| && (txs[i] == SetStream(false) || txs[i].DeleteRows?)
    requires StatusOf(Run(EMPTY, txs)).streamConnected
    ensures exists k :: i < k < |txs| && Reconnects(txs, k)
    decreases |txs|
  {
    var n := |txs| - 1;
    var before := Run(EMPTY, txs[..n]);
    assert Run(EMPTY, txs) == PostgresStep(before, txs[n]);
    if Reconnects(txs, n) {
      assert i < n;
    } else {
      assert i < n && StatusOf(before).streamConnected;
      ConnectedWasReconnected(txs[..n], i);
      var k :| i < k < n && Reconnects(txs[..n], k);
      PrefixFacts(txs, k);
      assert Reconnects(txs, k);
    }
  }

  lemma OpenMeans(p: Projection, now: int, maximumAge: int)
    ensures Gate(p, now, maximumAge) == Open <==>
      && StatusOf(p).state == Reconciled && StatusOf(p).streamConnected
      && StatusOf(p).lastReconciledAt.Some? && now - StatusOf(p).lastReconciledAt.value <= maximumAge
      && p.account.Some? && !IsBlocked(p.account.value)
  {
  }

  /** The gate is open exactly for a reconciled, connected status of bounded age and an
      account without any of the three flags; a workspace without a status row is closed. */
  lemma OpenMeansUnflagged(p: Projection, now: int, maximumAge: int)
    ensures Gate(p, now, maximumAge) == Open <==>
      && p.row.Some? && p.row.value.state == Reconciled && p.row.value.streamConnected
      && p.row.value.lastReconciledAt.Some? && now - p.row.value.lastReconciledAt.value <= maximumAge
      && p.account.Some? && !p.account.value.accountBlocked && !p.account.value.tradingBlocked
      && !p.account.value.tradeSuspended
  {
  }

  /** An open gate rests on a successful apply that is still the latest state-changing
      transaction, is no older than the maximum age and saw an unblocked account. */
  ghost predicate RestsOn(txs: seq<Tx>, a: int, now: int, maximumAge: int) {
    && LastChangeIsApply(txs, a)
    && now - txs[a].snapshot.reconciledAt <= maximumAge
    && !IsBlocked(txs[a].snapshot.account)
  }

  lemma OpenGateRestsOnApply(txs: seq<Tx>, now: int, maximumAge: int)
    requires IsProgramRun(txs)
    requires Gate(Run(EMPTY, txs), now, maximumAge) == Open
    ensures exists a :: RestsOn(txs, a, now, maximumAge)
  {
    OpenMeans(Run(EMPTY, txs), now, maximumAge);
    ReconciledIffLastChangeIsApply(txs);
    var a :| LastChangeIsApply(txs, a);
    assert RestsOn(txs, a, now, maximumAge);
  }

  lemma LatestIsLater(txs: seq<Tx>, i: int, a: int)
    requires 0 <= i < |txs| && ChangesState(txs, i) && !AppliedAt(txs, i)
    requires LastChangeIsApply(txs, a)
    ensures i < a < |txs|
  {
  }

  /** Between any recorded disconnect, mark or deletion and a later open gate there is
      an apply; after a disconnect or a deletion there is also a reconnect or an update. */
  lemma OpenGateFollowsApplyAndReconnect(txs: seq<Tx>, i: int, now: int, maximumAge: int)
    requires IsProgramRun(txs) && 0 <= i < |txs| && ChangesState(txs, i) && !AppliedAt(txs, i)
    requires Gate(Run(EMPTY, txs), now, maximumAge) == Open
    ensures exists a :: i < a < |txs| && RestsOn(txs, a, now, maximumAge)
    ensures txs[i].MarkState? || exists k :: i < k < |txs| && Reconnects(txs, k)
  {
    OpenGateRestsOnApply(txs, now, maximumAge);
    var a :| RestsOn(txs, a, now, maximumAge);
    LatestIsLater(txs, i, a);
    OpenMeans(Run(EMPTY, txs), now, maximumAge);
    if !txs[i].MarkState? {
      ConnectedWasReconnected(txs, i);
    }
  }

  /** Two of the gate's refusals are unreachable when status and account are read together. */
  lemma ReconciledRowsAreComplete(txs: seq<Tx>, now: int, maximumAge: int)
    requires IsProgramRun(txs)
    ensures Gate(Run(EMPTY, txs), now, maximumAge) !in {NeverReconciled, NoAccount}
  {
    ReconciledIffLastChangeIsApply(txs);
  }

  // ----- What the rows hold after a run -----

  /** `n` transactions led to the latest successful apply or deletion, inclusive; 0 if there was none. */
  ghost predicate IsEpoch(txs: seq<Tx>, n: nat) {
    && n <= |txs|
    && (n > 0 ==> AppliedAt(txs, n - 1) || txs[n - 1].DeleteRows?)
    && (forall j :: n <= j < |txs| ==> !AppliedAt(txs, j) && !txs[j].DeleteRows?)
  }

  lemma {:induction false} EpochExists(txs: seq<Tx>) returns (n: nat)
    ensures IsEpoch(txs, n)
    decreases |txs|
  {
    n := |txs|;
    if txs != [] && !AppliedAt(txs, |txs| - 1) && !txs[|txs| - 1].DeleteRows? {
      var init := txs[..|txs| - 1];
      n := EpochExists(init);
      forall j | 0 <= j < |init| ensures AppliedAt(init, j) <==> AppliedAt(txs, j) { PrefixFacts(txs, j); }
    }
  }

  /** Orders overridden, in order, by the trade updates that committed. */
  function Overlay(orders: map<string, Order>, txs: seq<Tx>): map<string, Order> {
    if txs == [] then orders else
    var before := Overlay(orders, txs[..|txs| - 1]);
    match txs[|txs| - 1]
    case Update(u) =>
      if ClientIdIsFree(before, u.order) then before[u.order.brokerOrderId := u.order] else before
    case _ => before
  }

  /** The projection that the latest apply or deletion of a run left behind. */
  ghost predicate HoldsBase(txs: seq<Tx>, n: nat, account: Option<Account>,
                            positions: map<string, Position>, orders: map<string, Order>)
    requires n <= |txs|
  {
    if n > 0 && txs[n - 1].Apply? then
      && account == Some(txs[n - 1].snapshot.account)
      && HoldsPositions(positions, txs[n - 1].snapshot.positions)
      && HoldsOrders(orders, txs[n - 1].snapshot.openOrders)
    else
      account == None && positions == map[] && orders == map[]
  }

  lemma EpochOfPrefix(txs: seq<Tx>, n: nat)
    requires IsEpoch(txs, n) && n < |txs|
    ensures IsEpoch(txs[..|txs| - 1], n)
  {
    var init := txs[..|txs| - 1];
    forall j | 0 <= j < |init| ensures AppliedAt(init, j) <==> AppliedAt(txs, j) { PrefixFacts(txs, j); }
  }

  /** A transaction that is neither a successful apply nor a deletion moves at most one order. */
  lemma RowsAfterStep(p: Projection, tx: Tx)
    requires !(tx.Apply? && Commits(p, tx)) && !tx.DeleteRows?
    ensures var q := PostgresStep(p, tx);
      && q.account == p.account && q.positions == p.positions
      && q.orders == (if tx.Update? && ClientIdIsFree(p.orders, tx.update.order)
                      then p.orders[tx.update.order.brokerOrderId := tx.update.order] else p.orders)
  {
  }

  lemma RunLast(txs: seq<Tx>)
    requires txs != []
    ensures Run(EMPTY, txs) == PostgresStep(Run(EMPTY, txs[..|txs| - 1]), txs[|txs| - 1])
  {
  }

  /** After any run the account and the positions are those of the last applied snapshot
      and the orders are its orders overridden, in order, by the later trade updates. */
  lemma {:induction false} RowsAreSnapshotAndUpdates(txs: seq<Tx>, n: nat)
    returns (base: map<string, Order>)
    requires IsEpoch(txs, n)
    ensures var p := Run(EMPTY, txs);
      && HoldsBase(txs, n, p.account, p.positions, base)
      && p.orders == Overlay(base, txs[n..])
    decreases |txs|
  {
    base := Run(EMPTY, txs).orders;
    if n < |txs| {
      var last := |txs| - 1;
      var init := txs[..last];
      EpochOfPrefix(txs, n);
      base := RowsAreSnapshotAndUpdates(init, n);
      assert txs[n..][..|txs[n..]| - 1] == init[n..];
      RunLast(txs);
      assert !AppliedAt(txs, last);
      RowsAfterStep(Run(EMPTY, init), txs[last]);
    } else {
      assert txs[n..] == [];
      EpochBegins(txs);
    }
  }

  /** What an apply or a deletion leaves behind. */
  lemma EpochBegins(txs: seq<Tx>)
    requires IsEpoch(txs, |txs|)
    ensures var p := Run(EMPTY, txs); HoldsBase(txs, |txs|, p.account, p.positions, p.orders)
  {
    if txs != [] {
      RunLast(txs);
      var last := txs[|txs| - 1];
      assert AppliedAt(txs, |txs| - 1) || last.DeleteRows?;
      if last.Apply? {
        OrdersByIdHolds(last.snapshot.openOrders);
        PositionsByIdHolds(last.snapshot.positions);
      }
    }
  }

  // ----- The unique keys -----

  /** Every row lies under its id, and no two orders share a client id. */
  ghost predicate RowsAreKeyed(p: Projection) {
    && (forall id :: id in p.positions ==> p.positions[id].assetId == id)
    && (forall id :: id in p.orders ==> p.orders[id].brokerOrderId == id)
    && (forall a, b | a in p.orders && b in p.orders && a != b ::
          p.orders[a].clientOrderId != p.orders[b].clientOrderId)
  }

  lemma StepKeepsKeys(p: Projection, tx: Tx)
    requires RowsAreKeyed(p)
    ensures RowsAreKeyed(PostgresStep(p, tx))
  {
    if tx.Apply? && Commits(p, tx) {
      OrdersByIdHolds(tx.snapshot.openOrders);
      PositionsByIdHolds(tx.snapshot.positions);
      ListedKeysAreUnique(OrdersById(tx.snapshot.openOrders), tx.snapshot);
    }
  }

  lemma ListedKeysAreUnique(m: map<string, Order>, s: Snapshot)
    requires HoldsOrders(m, s.openOrders) && KeysAreUnique(s)
    ensures forall a, b | a in m && b in m && a != b :: m[a].clientOrderId != m[b].clientOrderId
  {
    forall a, b | a in m && b in m && a != b ensures m[a].clientOrderId != m[b].clientOrderId {
      assert m[a] in s.openOrders && m[b] in s.openOrders;
      var i :| 0 <= i < |s.openOrders| && s.openOrders[i] == m[a];
      var j :| 0 <= j < |s.openOrders| && s.openOrders[j] == m[b];
      assert i != j;
    }
  }

  /** In every run of the Postgres store the primary and unique keys hold. */
  lemma {:induction false} RowsStayKeyed(txs: seq<Tx>)
    ensures RowsAreKeyed(Run(EMPTY, txs))
    decreases |txs|
  {
    if txs != [] {
      RowsStayKeyed(txs[..|txs| - 1]);
      StepKeepsKeys(Run(EMPTY, txs[..|txs| - 1]), txs[|txs| - 1]);
    }
  }

  /** Successful applies since the last deletion, and the differences they found. */
  function Applies(txs: seq<Tx>): nat {
    if txs == [] || txs[|txs| - 1].DeleteRows? then 0 else
    Applies(txs[..|txs| - 1]) + if AppliedAt(txs, |txs| - 1) then 1 else 0
  }

  function TotalDivergence(txs: seq<Tx>): nat {
    if txs == [] || txs[|txs| - 1].DeleteRows? then 0 else
    var n := |txs| - 1;
    TotalDivergence(txs[..n])
    + if AppliedAt(txs, n) then Divergence(Run(EMPTY, txs[..n]), txs[n].snapshot) else 0
  }

  lemma {:induction false} CountersAreTotals(txs: seq<Tx>)
    ensures StatusOf(Run(EMPTY, txs)).generation == Applies(txs)
    ensures StatusOf(Run(EMPTY, txs)).divergenceCount == TotalDivergence(txs)
    decreases |txs|
  {
    if txs != [] {
      var n := |txs| - 1;
      CountersAreTotals(txs[..n]);
      assert Run(EMPTY, txs) == PostgresStep(Run(EMPTY, txs[..n]), txs[n]);
    }
  }

  lemma DifferenceIsZeroIffEqual<T>(a: set<T>, b: set<T>)
    ensures SymmetricDifference(a, b) == 0 <==> a == b
  {
    if a != b {
      if x :| x in a && x !in b {
        assert x in (a - b) + (b - a);
      } else {
        var x :| x in b && x !in a;
        assert x in (a - b) + (b - a);
      }
    } else {
      assert (a - b) + (b - a) == {};
    }
  }

  /** The broker order ids that committed updates of `txs` carry. */
  function UpdatedIds(orders: map<string, Order>, txs: seq<Tx>): set<string> {
    if txs == [] then {} else
    var init := txs[..|txs| - 1];
    match txs[|txs| - 1]
    case Update(u) =>
      UpdatedIds(orders, init)
      + if ClientIdIsFree(Overlay(orders, init), u.order) then {u.order.brokerOrderId} else {}
    case _ => UpdatedIds(orders, init)
  }

  lemma {:induction false} OverlayKeys(orders: map<string, Order>, txs: seq<Tx>)
    ensures Overlay(orders, txs).Keys == orders.Keys + UpdatedIds(orders, txs)
    decreases |txs|
  {
    if txs != [] { OverlayKeys(orders, txs[..|txs| - 1]); }
  }

  lemma BaseIsById(positions: map<string, Position>, orders: map<string, Order>, s: Snapshot)
    requires KeysAreUnique(s) && HoldsPositions(positions, s.positions) && HoldsOrders(orders, s.openOrders)
    ensures positions == PositionsById(s.positions) && orders == OrdersById(s.openOrders)
  {
    PositionsByIdHolds(s.positions);
    OrdersByIdHolds(s.openOrders);
    HeldPositionsAreOne(positions, PositionsById(s.positions), s.positions);
    HeldOrdersAreOne(orders, OrdersById(s.openOrders), s.openOrders);
  }

  /** Re-applying the snapshot that was applied last finds a difference exactly when a
      trade update since then brought in an order the snapshot did not list. */
  lemma ReapplyFindsOnlyNewOrders(txs: seq<Tx>, n: nat)
    requires IsEpoch(txs, n) && n > 0 && txs[n - 1].Apply?
    ensures var s := txs[n - 1].snapshot; var base := OrdersById(s.openOrders);
      Divergence(Run(EMPTY, txs), s) == 0 <==> UpdatedIds(base, txs[n..]) <= base.Keys
  {
    var s := txs[n - 1].snapshot;
    var p := Run(EMPTY, txs);
    var base := RowsAreSnapshotAndUpdates(txs, n);
    assert AppliedAt(txs, n - 1);
    BaseIsById(p.positions, base, s);
    OverlayKeys(base, txs[n..]);
    DifferenceIsZeroIffEqual(p.positions.Keys, PositionsById(s.positions).Keys);
    DifferenceIsZeroIffEqual(p.orders.Keys, base.Keys);
  }

  lemma ApplyTwice(p: Projection, s: Snapshot)
    requires KeysAreUnique(s)
    ensures var q := PostgresStep(p, Apply(s)); var r := PostgresStep(q, Apply(s));
      && StatusOf(r) == StatusOf(q).(generation := StatusOf(q).generation + 1)
      && r.account == q.account && r.positions == q.positions && r.orders == q.orders
  {
    var q := PostgresStep(p, Apply(s));
    DifferenceIsZeroIffEqual(q.positions.Keys, PositionsById(s.positions).Keys);
    DifferenceIsZeroIffEqual(q.orders.Keys, OrdersById(s.openOrders).Keys);
  }

  /** With no transaction in between, re-applying adds one generation and no divergence. */
  lemma ReapplyAddsZero(txs: seq<Tx>)
    requires txs != [] && AppliedAt(txs, |txs| - 1)
    ensures var s := txs[|txs| - 1].snapshot;
      var p := Run(EMPTY, txs); var q := PostgresStep(p, Apply(s));
      && StatusOf(q) == StatusOf(p).(generation := StatusOf(p).generation + 1)
      && q.account == p.account && q.positions == p.positions && q.orders == p.orders
  {
    var s := txs[|txs| - 1].snapshot;
    var p := Run(EMPTY, txs);
    RunLast(txs);
    ApplyTwice(Run(EMPTY, txs[..|txs| - 1]), s);
  }

  // ----- The two stores -----

  /** The in-memory store, given the transactions that Postgres commits. */
  function Mirror(txs: seq<Tx>): Projection {
    if txs == [] then EMPTY else
    var n := |txs| - 1;
    if Committed(txs, n) then MemoryStep(Mirror(txs[..n]), txs[n]) else Mirror(txs[..n])
  }

  ghost predicate Related(p: Projection, m: Projection) {
    var s, t := StatusOf(p), StatusOf(m);
    && (s.state == Reconciled <==> t.state == Reconciled)
    && s.streamConnected == t.streamConnected
    && s.lastReconciledAt == t.lastReconciledAt
    && s.generation == t.generation && s.divergenceCount == t.divergenceCount
    && p.account == m.account && p.positions == m.positions && p.orders == m.orders
  }

  lemma StepKeepsRelated(p: Projection, m: Projection, tx: Tx)
    requires Related(p, m) && Commits(p, tx)
    ensures Related(PostgresStep(p, tx), MemoryStep(m, tx))
  {
  }

  lemma {:induction false} StoresStayRelated(txs: seq<Tx>)
    ensures Related(Run(EMPTY, txs), Mirror(txs))
    decreases |txs|
  {
    if txs != [] {
      var n := |txs| - 1;
      StoresStayRelated(txs[..n]);
      if Committed(txs, n) { StepKeepsRelated(Run(EMPTY, txs[..n]), Mirror(txs[..n]), txs[n]); }
    }
  }

  ghost predicate SameVerdicts(p: Projection, m: Projection, maximumAge: int) {
    forall now :: Gate(p, now, maximumAge) == Open <==> Gate(m, now, maximumAge) == Open
  }

  /** In every reachable pair of states the two stores give the gate the same verdict at
      every time, and the same rows and counters. */
  lemma StoresAgree(txs: seq<Tx>, maximumAge: int)
    ensures SameVerdicts(Run(EMPTY, txs), Mirror(txs), maximumAge)
    ensures var p, m := Run(EMPTY, txs), Mirror(txs);
      && p.account == m.account && p.positions == m.positions && p.orders == m.orders
      && StatusOf(p).generation == StatusOf(m).generation
      && StatusOf(p).divergenceCount == StatusOf(m).divergenceCount
  {
    StoresStayRelated(txs);
    forall now ensures Gate(Run(EMPTY, txs), now, maximumAge) == Open <==> Gate(Mirror(txs), now, maximumAge) == Open {
      OpenMeans(Run(EMPTY, txs), now, maximumAge);
      OpenMeans(Mirror(txs), now, maximumAge);
    }
  }

  /** The reason for a refusal can still differ: a disconnect before any reconcile. */
  lemma RefusalsMayDiffer(now: int)
    ensures Gate(Run(EMPTY, [SetStream(false)]), now, MAXIMUM_AGE) == NotReconciled(NotConfigured)
    ensures Gate(Mirror([SetStream(false)]), now, MAXIMUM_AGE) == NotReconciled(Unknown)
  {
    var txs := [SetStream(false)];
    assert txs[..0] == [] && Committed(txs, 0);
    assert Run(EMPTY, txs) == PostgresStep(Run(EMPTY, []), SetStream(false));
  }

  /** The gate would be open at some time. */
  predicate CanOpen(p: Projection) {
    var s := StatusOf(p);
    s.state == Reconciled && s.streamConnected && s.lastReconciledAt.Some?
    && p.account.Some? && !IsBlocked(p.account.value)
  }

  /** A transaction that Postgres rolls back but the in-memory store accepts: exactly
      when the verdicts still agree. */
  predicate RollbackIsInvisible(p: Projection, tx: Tx)
    requires !Commits(p, tx)
  {
    match tx
    case Update(_) =>
      StatusOf(p).streamConnected || !CanOpen(PostgresStep(p, SetStream(true)))
    case Apply(s) =>
      if CanOpen(p) then !IsBlocked(s.account) && Some(s.reconciledAt) == StatusOf(p).lastReconciledAt
      else !StatusOf(p).streamConnected || IsBlocked(s.account)
  }

  lemma RollbackAgreement(p: Projection, m: Projection, tx: Tx, maximumAge: int)
    requires Related(p, m) && !Commits(p, tx)
    ensures SameVerdicts(PostgresStep(p, tx), MemoryStep(m, tx), maximumAge) <==> RollbackIsInvisible(p, tx)
  {
    var q, n := PostgresStep(p, tx), MemoryStep(m, tx);
    VerdictsAgreeIff(q, n, maximumAge);
  }

  lemma VerdictsAgreeIff(q: Projection, n: Projection, maximumAge: int)
    ensures SameVerdicts(q, n, maximumAge) <==>
      && (CanOpen(q) <==> CanOpen(n))
      && (CanOpen(q) ==> StatusOf(q).lastReconciledAt == StatusOf(n).lastReconciledAt)
  {
    forall now
      ensures Gate(q, now, maximumAge) == Open <==> CanOpen(q) && now - StatusOf(q).lastReconciledAt.value <= maximumAge
      ensures Gate(n, now, maximumAge) == Open <==> CanOpen(n) && now - StatusOf(n).lastReconciledAt.value <= maximumAge
    {
      OpenMeans(q, now, maximumAge);
      OpenMeans(n, now, maximumAge);
    }
    if SameVerdicts(q, n, maximumAge) {
      if CanOpen(q) {
        var t := StatusOf(q).lastReconciledAt.value;
        assert Gate(q, t + maximumAge, maximumAge) == Open;
        assert Gate(q, t + maximumAge + 1, maximumAge) != Open;
        assert Gate(n, t + maximumAge, maximumAge) == Open;
        assert Gate(n, t + maximumAge + 1, maximumAge) != Open;
      }
      if CanOpen(n) {
        var t := StatusOf(n).lastReconciledAt.value;
        assert Gate(n, t + maximumAge, maximumAge) == Open;
        assert Gate(q, t + maximumAge, maximumAge) == Open;
      }
    }
  }

  /** A snapshot that lists one position twice: Postgres stays closed, memory opens. */
  lemma RollbackCanBeVisible(a: Account, x: Position, now: int)
    requires !IsBlocked(a)
    ensures var bad := Apply(Snapshot(a, [x, x], [], now)); var p := Run(EMPTY, [SetStream(true)]);
      && !Commits(p, bad)
      && Gate(PostgresStep(p, bad), now, MAXIMUM_AGE) != Open
      && Gate(MemoryStep(Mirror([SetStream(true)]), bad), now, MAXIMUM_AGE) == Open
  {
    var txs := [SetStream(true)];
    assert txs[..0] == [] && Committed(txs, 0);
    assert Run(EMPTY, txs) == PostgresStep(Run(EMPTY, []), SetStream(true));
    var s := Snapshot(a, [x, x], [], now);
    assert s.positions[0].assetId == s.positions[1].assetId;
  }

  // ----- The two stores over runs with rollbacks -----

  /** The in-memory store, given every transaction, also those that Postgres rolls back. */
  function MemoryRun(m: Projection, txs: seq<Tx>): Projection {
    if txs == [] then m else MemoryStep(MemoryRun(m, txs[..|txs| - 1]), txs[|txs| - 1])
  }

  /** The gate would be open at some time once the stream is connected. */
  predicate IsReady(p: Projection) {
    var s := StatusOf(p);
    s.state == Reconciled && s.lastReconciledAt.Some? && p.account.Some? && !IsBlocked(p.account.value)
  }

  /** The stores agree on all that a later verdict can depend on. */
  predicate Interchangeable(p: Projection, m: Projection) {
    && StatusOf(p).streamConnected == StatusOf(m).streamConnected
    && (IsReady(p) <==> IsReady(m))
    && (IsReady(p) ==> StatusOf(p).lastReconciledAt == StatusOf(m).lastReconciledAt)
  }

  predicate AllCommit(p: Projection, txs: seq<Tx>) {
    forall i | 0 <= i < |txs| :: Commits(Run(p, txs[..i]), txs[i])
  }

  /** The verdicts are the same now and after any further transactions that commit. */
  ghost predicate AgreeFromHere(p: Projection, m: Projection, maximumAge: int) {
    forall more | IsProgramRun(more) && AllCommit(p, more) :: SameVerdicts(Run(p, more), MemoryRun(m, more), maximumAge)
  }

  lemma StepKeepsInterchangeable(p: Projection, m: Projection, tx: Tx)
    requires Interchangeable(p, m) && IsProgramTx(tx) && Commits(p, tx)
    ensures Interchangeable(PostgresStep(p, tx), MemoryStep(m, tx))
  {
  }

  lemma {:induction false} RunKeepsInterchangeable(p: Projection, m: Projection, more: seq<Tx>)
    requires Interchangeable(p, m) && IsProgramRun(more) && AllCommit(p, more)
    ensures Interchangeable(Run(p, more), MemoryRun(m, more))
    decreases |more|
  {
    if more != [] {
      var n := |more| - 1;
      forall i | 0 <= i < n ensures Commits(Run(p, more[..n][..i]), more[..n][i]) {
        assert more[..n][..i] == more[..i];
      }
      RunKeepsInterchangeable(p, m, more[..n]);
      StepKeepsInterchangeable(Run(p, more[..n]), MemoryRun(m, more[..n]), more[n]);
    }
  }

  lemma InterchangeableAgree(p: Projection, m: Projection, maximumAge: int)
    requires Interchangeable(p, m)
    ensures SameVerdicts(p, m, maximumAge)
  {
    VerdictsAgreeIff(p, m, maximumAge);
  }

  /** A snapshot of an empty, unblocked account. */
  const PROBE := Snapshot(Account("", 0.0, 0.0, false, false, false), [], [], 0)

  /** A difference shows in the verdict after one connect or one apply. */
  lemma DifferenceShows(p: Projection, m: Projection, maximumAge: int)
    requires SameVerdicts(PostgresStep(p, SetStream(true)), MemoryStep(m, SetStream(true)), maximumAge)
    requires SameVerdicts(PostgresStep(p, Apply(PROBE)), MemoryStep(m, Apply(PROBE)), maximumAge)
    ensures Interchangeable(p, m)
  {
    VerdictsAgreeIff(PostgresStep(p, SetStream(true)), MemoryStep(m, SetStream(true)), maximumAge);
    VerdictsAgreeIff(PostgresStep(p, Apply(PROBE)), MemoryStep(m, Apply(PROBE)), maximumAge);
  }

  lemma AgreeAfterOne(p: Projection, m: Projection, tx: Tx, maximumAge: int)
    requires AgreeFromHere(p, m, maximumAge) && IsProgramTx(tx) && Commits(p, tx)
    ensures SameVerdicts(PostgresStep(p, tx), MemoryStep(m, tx), maximumAge)
  {
    var more := [tx];
    assert more[..0] == [];
    assert IsProgramRun(more) && AllCommit(p, more);
    assert Run(p, more) == PostgresStep(Run(p, more[..0]), tx);
    assert MemoryRun(m, more) == MemoryStep(MemoryRun(m, more[..0]), tx);
  }

  /** Being interchangeable is exactly what it takes to agree from here on. */
  lemma InterchangeableIff(p: Projection, m: Projection, maximumAge: int)
    ensures Interchangeable(p, m) <==> AgreeFromHere(p, m, maximumAge)
  {
    if Interchangeable(p, m) {
      forall more | IsProgramRun(more) && AllCommit(p, more)
        ensures SameVerdicts(Run(p, more), MemoryRun(m, more), maximumAge)
      {
        RunKeepsInterchangeable(p, m, more);
        InterchangeableAgree(Run(p, more), MemoryRun(m, more), maximumAge);
      }
    }
    if AgreeFromHere(p, m, maximumAge) {
      AgreeAfterOne(p, m, SetStream(true), maximumAge);
      AgreeAfterOne(p, m, Apply(PROBE), maximumAge);
      DifferenceShows(p, m, maximumAge);
    }
  }

  /** When a rollback leaves nothing behind in the in-memory store that a verdict can show:
      an update on a connected stream, an apply of an unblocked account at the time on record
      when the stored one is ready, and an apply of a blocked account when it is not. */
  predicate IsHarmless(p: Projection, tx: Tx)
    requires !Commits(p, tx)
  {
    match tx
    case Update(_) => StatusOf(p).streamConnected
    case Apply(s) =>
      if IsReady(p) then !IsBlocked(s.account) && Some(s.reconciledAt) == StatusOf(p).lastReconciledAt
      else IsBlocked(s.account)
  }

  lemma RollbackKeepsIff(p: Projection, m: Projection, tx: Tx)
    requires Interchangeable(p, m) && !Commits(p, tx)
    ensures Interchangeable(PostgresStep(p, tx), MemoryStep(m, tx)) <==> IsHarmless(p, tx)
  {
  }

  ghost predicate InterchangeableThroughout(txs: seq<Tx>) {
    forall k | 0 <= k <= |txs| :: Interchangeable(Run(EMPTY, txs[..k]), MemoryRun(EMPTY, txs[..k]))
  }

  /** Transaction `k` commits, or its rollback is harmless. */
  predicate HarmlessAt(txs: seq<Tx>, k: int)
    requires 0 <= k < |txs|
  {
    Committed(txs, k) || IsHarmless(Run(EMPTY, txs[..k]), txs[k])
  }

  lemma RunsAt(txs: seq<Tx>, k: int)
    requires 0 <= k < |txs|
    ensures Run(EMPTY, txs[..k + 1]) == PostgresStep(Run(EMPTY, txs[..k]), txs[k])
    ensures MemoryRun(EMPTY, txs[..k + 1]) == MemoryStep(MemoryRun(EMPTY, txs[..k]), txs[k])
  {
    assert txs[..k + 1][..k] == txs[..k];
  }

  lemma NextInterchangeableIff(txs: seq<Tx>, k: int)
    requires 0 <= k < |txs| && IsProgramTx(txs[k])
    requires Interchangeable(Run(EMPTY, txs[..k]), MemoryRun(EMPTY, txs[..k]))
    ensures Interchangeable(Run(EMPTY, txs[..k + 1]), MemoryRun(EMPTY, txs[..k + 1])) <==> HarmlessAt(txs, k)
  {
    RunsAt(txs, k);
    if Committed(txs, k) {
      StepKeepsInterchangeable(Run(EMPTY, txs[..k]), MemoryRun(EMPTY, txs[..k]), txs[k]);
    } else {
      RollbackKeepsIff(Run(EMPTY, txs[..k]), MemoryRun(EMPTY, txs[..k]), txs[k]);
    }
  }

  lemma {:induction false} HarmlessPrefix(txs: seq<Tx>, k: nat)
    requires IsProgramRun(txs) && k <= |txs| && forall i | 0 <= i < |txs| :: HarmlessAt(txs, i)
    ensures Interchangeable(Run(EMPTY, txs[..k]), MemoryRun(EMPTY, txs[..k]))
  {
    if k > 0 {
      HarmlessPrefix(txs, k - 1);
      NextInterchangeableIff(txs, k - 1);
    }
  }

  lemma ThroughoutIff(txs: seq<Tx>)
    requires IsProgramRun(txs)
    ensures InterchangeableThroughout(txs) <==> forall k | 0 <= k < |txs| :: HarmlessAt(txs, k)
  {
    if forall k | 0 <= k < |txs| :: HarmlessAt(txs, k) {
      forall k | 0 <= k <= |txs| ensures Interchangeable(Run(EMPTY, txs[..k]), MemoryRun(EMPTY, txs[..k])) {
        HarmlessPrefix(txs, k);
      }
    }
    if InterchangeableThroughout(txs) {
      forall k | 0 <= k < |txs| ensures HarmlessAt(txs, k) {
        assert Interchangeable(Run(EMPTY, txs[..k + 1]), MemoryRun(EMPTY, txs[..k + 1]));
        NextInterchangeableIff(txs, k);
      }
    }
  }

  /** The simulation over runs of the same events, rollbacks included: the two stores give
      the same verdict at every point of a run, and after anything that commits from there,
      exactly when each transaction of the run commits or is harmless to roll back. */
  lemma RunsAgreeIff(txs: seq<Tx>, maximumAge: int)
    requires IsProgramRun(txs)
    ensures (forall k | 0 <= k <= |txs| :: AgreeFromHere(Run(EMPTY, txs[..k]), MemoryRun(EMPTY, txs[..k]), maximumAge))
      <==> forall k | 0 <= k < |txs| :: HarmlessAt(txs, k)
  {
    ThroughoutIff(txs);
    forall k | 0 <= k <= |txs|
      ensures Interchangeable(Run(EMPTY, txs[..k]), MemoryRun(EMPTY, txs[..k]))
        <==> AgreeFromHere(Run(EMPTY, txs[..k]), MemoryRun(EMPTY, txs[..k]), maximumAge)
    {
      InterchangeableIff(Run(EMPTY, txs[..k]), MemoryRun(EMPTY, txs[..k]), maximumAge);
    }
  }

  /** A rollback that no verdict shows at once can show later: an update for a client id
      already in use, rolled back while the stream is down, then an apply. */
  lemma RollbackCanShowLater(a: Order, b: Order, s: Snapshot)
    requires a.clientOrderId == b.clientOrderId && a.brokerOrderId != b.brokerOrderId
    requires !IsBlocked(s.account) && KeysAreUnique(s)
    ensures var before := [Update(TradeUpdate(a, 0)), SetStream(false)]; var bad := Update(TradeUpdate(b, 1));
      var p, m := Run(EMPTY, before), MemoryRun(EMPTY, before);
      && !Commits(p, bad) && RollbackIsInvisible(p, bad) && !IsHarmless(p, bad)
      && Gate(PostgresStep(PostgresStep(p, bad), Apply(s)), s.reconciledAt, MAXIMUM_AGE) != Open
      && Gate(MemoryStep(MemoryStep(m, bad), Apply(s)), s.reconciledAt, MAXIMUM_AGE) == Open
  {
    var x, y := Update(TradeUpdate(a, 0)), SetStream(false);
    var before := [x, y];
    RunsAt(before, 0);
    RunsAt(before, 1);
    assert before[..0] == [] && before[..2] == before;
    assert Run(EMPTY, before).orders == map[a.brokerOrderId := a];
    assert a.brokerOrderId in Run(EMPTY, before).orders;
    assert !ClientIdIsFree(Run(EMPTY, before).orders, b);
  }

  // ----- The stores and the service, as the program updates them -----

  class PostgresBrokerProjectionStore {
    var row: Option<SyncStatus>
    var account: Option<Account>
    var positions: map<string, Position>
    var orders: map<string, Order>

    function View(): Projection
      reads this
    {
      Projection(row, account, positions, orders)
    }

    constructor ()
      ensures View() == EMPTY
    {
      row, account, positions, orders := None, None, map[], map[];
    }

    /** The locked status row, inserted with its defaults when it is absent. */
    method StateForUpdate() returns (status: SyncStatus)
      modifies this`row
      ensures status == StatusOf(old(View())) && row == Some(status)
    {
      if row.None? {
        row := Some(FRESH);
      }
      status := row.value;
    }

    method MarkState(state: BrokerState, reason: Option<string>)
      modifies this
      ensures View() == PostgresStep(old(View()), Tx.MarkState(state, reason))
    {
      var status := StateForUpdate();
      row := Some(status.(state := state, failureReason := reason));
    }

    method SetStreamConnected(connected: bool)
      modifies this
      ensures View() == PostgresStep(old(View()), SetStream(connected))
    {
      var status := StateForUpdate();
      status := status.(streamConnected := connected);
      if !connected && status.state == Reconciled {
        status := status.(state := Unknown, failureReason := Some(DISCONNECTED));
      }
      row := Some(status);
    }

    /** None when a unique constraint rolls the transaction back. */
    method ApplyReconciliation(snapshot: Snapshot) returns (divergence: Option<nat>)
      modifies this
      ensures View() == PostgresStep(old(View()), Apply(snapshot))
      ensures divergence.None? <==> RepeatsAKey(snapshot)
      ensures divergence.Some? ==>
        && account == Some(snapshot.account)
        && HoldsPositions(positions, snapshot.positions) && HoldsOrders(orders, snapshot.openOrders)
        && divergence.value == |InExactlyOne(old(positions).Keys, AssetIds(snapshot.positions))|
                               + |InExactlyOne(old(orders).Keys, OrderIds(snapshot.openOrders))|
      ensures divergence == if KeysAreUnique(snapshot) then Some(Divergence(old(View()), snapshot)) else None
    {
      KeysMeans(snapshot);
      if !KeysAreUnique(snapshot) {
        return None;
      }
      AppliedRows(View(), snapshot);
      DivergenceCounts(View(), snapshot);
      OrdersByIdHolds(snapshot.openOrders);
      PositionsByIdHolds(snapshot.positions);
      var found := Divergence(View(), snapshot);
      var status := StateForUpdate();
      ReplaceRows(snapshot, status, found);
      return Some(found);
    }

    method ReplaceRows(snapshot: Snapshot, status: SyncStatus, found: nat)
      modifies this
      ensures View() == Applied(status, found, snapshot)
    {
      account := Some(snapshot.account);
      positions := PositionsById(snapshot.positions);
      orders := OrdersById(snapshot.openOrders);
      row := Some(status.(state := Reconciled,
                          lastReconciledAt := Some(snapshot.reconciledAt),
                          generation := status.generation + 1,
                          divergenceCount := status.divergenceCount + found,
                          failureReason := None));
    }

    method ApplyTradeUpdate(update: TradeUpdate) returns (committed: bool)
      modifies this
      ensures View() == PostgresStep(old(View()), Update(update))
      ensures committed <==> ClientIdIsFree(old(orders), update.order)
      ensures !committed <==> exists id :: id in old(orders) && id != update.order.brokerOrderId
                                && old(orders)[id].clientOrderId == update.order.clientOrderId
    {
      committed := ClientIdIsFree(orders, update.order);
      if committed {
        orders := orders[update.order.brokerOrderId := update.order];
        var status := StateForUpdate();
        row := Some(status.(lastStreamEventAt := Some(update.occurredAt), streamConnected := true));
      }
    }
  }

  class MemoryBrokerProjectionStore {
    var status: SyncStatus
    var account: Option<Account>
    var positions: map<string, Position>
    var orders: map<string, Order>

    function View(): Projection
      reads this
    {
      Projection(Some(status), account, positions, orders)
    }

    constructor ()
      ensures View() == EMPTY.(row := Some(FRESH))
    {
      status, account, positions, orders := FRESH, None, map[], map[];
    }

    method MarkState(state: BrokerState, reason: Option<string>)
      modifies this
      ensures View() == MemoryStep(old(View()), Tx.MarkState(state, reason))
    {
      status := status.(state := state, failureReason := reason);
    }

    method SetStreamConnected(connected: bool)
      modifies this
      ensures View() == MemoryStep(old(View()), SetStream(connected))
    {
      var next := if connected then status.state else Unknown;
      status := status.(streamConnected := connected, state := next);
    }

    method ApplyReconciliation(snapshot: Snapshot) returns (divergence: nat)
      modifies this
      ensures View() == MemoryStep(old(View()), Apply(snapshot))
      ensures divergence == Divergence(old(View()), snapshot)
      ensures account == Some(snapshot.account)
      ensures HoldsLastPositions(positions, snapshot.positions) && HoldsLastOrders(orders, snapshot.openOrders)
      ensures divergence == |InExactlyOne(old(positions).Keys, AssetIds(snapshot.positions))|
                            + |InExactlyOne(old(orders).Keys, OrderIds(snapshot.openOrders))|
    {
      MemoryAppliedRows(View(), snapshot);
      DivergenceCounts(View(), snapshot);
      OrdersByIdHoldsLast(snapshot.openOrders);
      PositionsByIdHoldsLast(snapshot.positions);
      divergence := Divergence(View(), snapshot);
      ReplaceRows(snapshot, divergence);
    }

    method ReplaceRows(snapshot: Snapshot, found: nat)
      modifies this
      ensures View() == MemoryApplied(old(status), found, snapshot)
    {
      account := Some(snapshot.account);
      positions := PositionsById(snapshot.positions);
      orders := OrdersById(snapshot.openOrders);
      status := SyncStatus(Reconciled, Some(snapshot.reconciledAt), None, status.streamConnected,
                           status.generation + 1, status.divergenceCount + found, None);
    }

    method ApplyTradeUpdate(update: TradeUpdate)
      modifies this
      ensures View() == MemoryStep(old(View()), Update(update))
    {
      orders := orders[update.order.brokerOrderId := update.order];
      status := status.(lastStreamEventAt := Some(update.occurredAt), streamConnected := true);
    }
  }

  /** What `adapter.reconcile()` does: answer, raise, or be cancelled with its task. */
  datatype BrokerReply = Answered(snapshot: Snapshot) | Failed(reason: string) | Cancelled

  /** How the stream of trade updates ends. */
  datatype StreamEnd = StreamRaised | StreamCancelled

  function ReconcileTxs(reply: BrokerReply, failure: string): seq<Tx> {
    [MarkState(Reconciling, None)] +
    match reply
    case Answered(s) => if KeysAreUnique(s) then [Apply(s)] else [Apply(s), MarkState(Unknown, Some(failure))]
    case Failed(_) => [MarkState(Unknown, Some(failure))]
    case Cancelled => []
  }

  function UpdateTxs(updates: seq<TradeUpdate>): seq<Tx> {
    seq(|updates|, i requires 0 <= i < |updates| => Update(updates[i]))
  }

  function EndTxs(raised: bool): seq<Tx> {
    (if raised then [SetStream(false), MarkState(Unknown, Some(DISCONNECTED))] else [])
    + [SetStream(false)]
  }

  /** The transactions of a stream that has delivered `k` updates. */
  function StreamTxs(updates: seq<TradeUpdate>, k: nat): seq<Tx>
    requires k <= |updates|
  {
    [SetStream(true)] + UpdateTxs(updates[..k])
  }

  lemma StreamStarts(p: Projection, updates: seq<TradeUpdate>)
    ensures Run(p, StreamTxs(updates, 0)) == PostgresStep(p, SetStream(true))
  {
    RunSnoc(p, [], SetStream(true));
    assert StreamTxs(updates, 0) == [] + [SetStream(true)];
  }

  lemma StreamDelivers(p: Projection, updates: seq<TradeUpdate>, k: nat)
    requires k < |updates|
    ensures Run(p, StreamTxs(updates, k + 1)) == PostgresStep(Run(p, StreamTxs(updates, k)), Update(updates[k]))
  {
    RunSnoc(p, StreamTxs(updates, k), Update(updates[k]));
    assert StreamTxs(updates, k + 1) == StreamTxs(updates, k) + [Update(updates[k])];
  }

  /** The `i`-th streamed update commits on the rows as its predecessors left them. */
  ghost predicate UpdateCommits(p: Projection, updates: seq<TradeUpdate>, i: int)
    requires 0 <= i < |updates|
  {
    Commits(Run(p, StreamTxs(updates, i)), Update(updates[i]))
  }

  lemma RunSnoc(p: Projection, txs: seq<Tx>, tx: Tx)
    ensures Run(p, txs + [tx]) == PostgresStep(Run(p, txs), tx)
  {
    assert (txs + [tx])[..|txs|] == txs;
  }

  function Applied(status: SyncStatus, found: nat, s: Snapshot): Projection {
    Projection(
      Some(SyncStatus(Reconciled, Some(s.reconciledAt), status.lastStreamEventAt, status.streamConnected,
                      status.generation + 1, status.divergenceCount + found, None)),
      Some(s.account), PositionsById(s.positions), OrdersById(s.openOrders))
  }

  lemma AppliedRows(p: Projection, s: Snapshot)
    requires KeysAreUnique(s)
    ensures PostgresStep(p, Apply(s)) == Applied(StatusOf(p), Divergence(p, s), s)
  {
  }

  function MemoryApplied(status: SyncStatus, found: nat, s: Snapshot): Projection {
    Projection(
      Some(SyncStatus(Reconciled, Some(s.reconciledAt), None, status.streamConnected,
                      status.generation + 1, status.divergenceCount + found, None)),
      Some(s.account), PositionsById(s.positions), OrdersById(s.openOrders))
  }

  lemma MemoryAppliedRows(m: Projection, s: Snapshot)
    ensures MemoryStep(m, Apply(s)) == MemoryApplied(StatusOf(m), Divergence(m, s), s)
  {
  }

  lemma ClosedAfterDisconnect(p: Projection)
    ensures var q := PostgresStep(p, SetStream(false));
      && StatusOf(q).state != Reconciled && !StatusOf(q).streamConnected
      && forall now, age :: Gate(q, now, age) != Open
  {
  }

  /** The transactions of one reconciliation, one after another. */
  lemma ReconcileRun(p: Projection, reply: BrokerReply, failure: string)
    ensures var q := PostgresStep(p, MarkState(Reconciling, None)); var unknown := MarkState(Unknown, Some(failure));
      Run(p, ReconcileTxs(reply, failure)) ==
        match reply
        case Answered(s) =>
          if KeysAreUnique(s) then PostgresStep(q, Apply(s)) else PostgresStep(PostgresStep(q, Apply(s)), unknown)
        case Failed(_) => PostgresStep(q, unknown)
        case Cancelled => q
  {
    var mark, unknown := MarkState(Reconciling, None), MarkState(Unknown, Some(failure));
    RunSnoc(p, [], mark);
    assert [] + [mark] == [mark];
    match reply
    case Answered(s) =>
      RunSnoc(p, [mark], Apply(s));
      RunSnoc(p, [mark] + [Apply(s)], unknown);
      assert [mark] + [Apply(s)] + [unknown] == [mark] + [Apply(s), unknown];
    case Failed(_) => RunSnoc(p, [mark], unknown);
    case Cancelled => assert [mark] + [] == [mark];
  }

  class ReconciliationService {
    const store: PostgresBrokerProjectionStore

    constructor (store: PostgresBrokerProjectionStore)
      ensures this.store == store
    {
      this.store := store;
    }

    /** `failure` is the reason recorded for an exception, `done` whether none was raised. */
    method Reconcile(reply: BrokerReply, failure: string) returns (done: bool)
      modifies store
      ensures store.View() == Run(old(store.View()), ReconcileTxs(reply, failure))
      ensures done <==> reply.Answered? && KeysAreUnique(reply.snapshot)
      ensures StatusOf(store.View()).state ==
        (if done then Reconciled else if reply.Cancelled? then Reconciling else Unknown)
    {
      ReconcileRun(store.View(), reply, failure);
      store.MarkState(Reconciling, None);
      done := false;
      if reply.Answered? {
        var divergence := store.ApplyReconciliation(reply.snapshot);
        done := divergence.Some?;
      }
      if !done && !reply.Cancelled? {
        store.MarkState(Unknown, Some(failure));
      }
    }

    /** The handlers after the stream ended: the `except` block if it raised, then `finally`. */
    method EndStream(raised: bool)
      modifies store
      ensures store.View() == Run(old(store.View()), EndTxs(raised))
      ensures StatusOf(store.View()).state != Reconciled && !StatusOf(store.View()).streamConnected
      ensures forall now, age :: Gate(store.View(), now, age) != Open
    {
      ghost var p := store.View();
      ghost var txs: seq<Tx> := [];
      if raised {
        store.SetStreamConnected(false);
        RunSnoc(p, txs, SetStream(false));
        txs := txs + [SetStream(false)];
        store.MarkState(Unknown, Some(DISCONNECTED));
        RunSnoc(p, txs, Tx.MarkState(Unknown, Some(DISCONNECTED)));
        txs := txs + [Tx.MarkState(Unknown, Some(DISCONNECTED))];
      }
      ClosedAfterDisconnect(store.View());
      store.SetStreamConnected(false);
      RunSnoc(p, txs, SetStream(false));
      assert txs + [SetStream(false)] == EndTxs(raised);
    }

    /** Consumes updates until one is rolled back or the stream ends; however it ends,
        the state is not RECONCILED and the gate is closed. */
    method ConsumeTradeUpdates(updates: seq<TradeUpdate>, end: StreamEnd) returns (delivered: nat, raised: bool)
      modifies store
      ensures delivered <= |updates|
      ensures store.View() == Run(old(store.View()), StreamTxs(updates, delivered) + EndTxs(raised))
      ensures forall i :: 0 <= i < delivered - 1 ==> UpdateCommits(old(store.View()), updates, i)
      ensures raised <==>
        end.StreamRaised? || (delivered > 0 && !UpdateCommits(old(store.View()), updates, delivered - 1))
      ensures delivered < |updates| ==> delivered > 0 && !UpdateCommits(old(store.View()), updates, delivered - 1)
      ensures StatusOf(store.View()).state != Reconciled && !StatusOf(store.View()).streamConnected
      ensures forall now, age :: Gate(store.View(), now, age) != Open
    {
      ghost var p := store.View();
      store.SetStreamConnected(true);
      StreamStarts(p, updates);
      delivered, raised := Deliver(p, updates);
      raised := raised || end.StreamRaised?;
      EndStream(raised);
      RunAppend(p, StreamTxs(updates, delivered), EndTxs(raised));
    }

    /** The loop over the stream: the updates in order, up to the first that is rolled back. */
    method Deliver(ghost p: Projection, updates: seq<TradeUpdate>) returns (delivered: nat, raised: bool)
      requires store.View() == Run(p, StreamTxs(updates, 0))
      modifies store
      ensures delivered <= |updates| && store.View() == Run(p, StreamTxs(updates, delivered))
      ensures forall i :: 0 <= i < delivered - 1 ==> UpdateCommits(p, updates, i)
      ensures raised <==> delivered > 0 && !UpdateCommits(p, updates, delivered - 1)
      ensures delivered < |updates| ==> raised
    {
      delivered, raised := 0, false;
      while delivered < |updates| && !raised
        invariant delivered <= |updates|
        invariant store.View() == Run(p, StreamTxs(updates, delivered))
        invariant forall i :: 0 <= i < delivered - 1 ==> UpdateCommits(p, updates, i)
        invariant raised <==> delivered > 0 && !UpdateCommits(p, updates, delivered - 1)
      {
        StreamDelivers(p, updates, delivered);
        var committed := store.ApplyTradeUpdate(updates[delivered]);
        raised := !committed;
        delivered := delivered + 1;
      }
    }
  }
}
