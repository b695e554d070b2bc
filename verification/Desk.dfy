/** The connected desk (apps/api/routes/desk.py): the Guardian, the broker
    projection, the joint preflight and the submit-once protocol of one workspace,
    run together.

    A halt reads the active incident and inserts in two steps, a recovery reads the
    broker status and clears in two steps, and a preflight reads the Guardian, the
    broker status and the account in three. Every other transaction is one step.
    A run is any sequence of events; an event that is not enabled does nothing. */
module Desk {

  import opened Common
  import opened Guardian
  import B = BrokerProjection
  import S = SubmitOnce

  datatype HaltPc = Inserting(reason: string, at: int) | HaltDone
  datatype RecoveryPc = BrokerKnown | RecoveryDone
  datatype CheckPc = GuardianPassed | StatusPassed | Answered(allowed: bool)

  datatype Desk = Desk(
    broker: B.Projection,
    incidents: Incidents,
    halts: map<nat, HaltPc>,
    recoveries: map<nat, RecoveryPc>,
    checks: map<nat, CheckPc>,
    execution: S.System)

  /** The id of a halt is also that of its incident, the id of a check that of the
      `execute` call that awaits it. */
  datatype Event =
    | Broker(tx: B.Tx)
    | CredentialDeleted
    | HaltRead(h: nat, reason: string, at: int)
    | HaltCommit(h: nat)
    | RecoverRead(r: nat, now: int)
    | RecoverCommit(r: nat, at: int)
    | CheckGuardian(c: nat)
    | CheckStatus(c: nat, now: int)
    | CheckAccount(c: nat)
    | Execution(e: S.Event)

  const START := Desk(B.EMPTY, map[], map[], map[], map[], S.Idle(true, map[]))

  /** The part of the gate that reads the status row, and the part that reads the account. */
  predicate StatusPasses(p: B.Projection, now: int) {
    var s := B.StatusOf(p);
    s.state == B.Reconciled && s.lastReconciledAt.Some?
    && now - s.lastReconciledAt.value <= B.MAXIMUM_AGE && s.streamConnected
  }

  predicate AccountPasses(p: B.Projection) {
    p.account.Some? && !B.IsBlocked(p.account.value)
  }

  /** `known` in `guardian_recover`: the same reads, but no look at the account. */
  predicate IsKnown(p: B.Projection, now: int) {
    StatusPasses(p, now)
  }

  predicate Inserts(d: Desk, h: nat) {
    h in d.halts && d.halts[h].Inserting?
  }

  predicate Clears(d: Desk, r: nat) {
    r in d.recoveries && d.recoveries[r] == BrokerKnown
  }

  predicate Enabled(d: Desk, e: Event) {
    match e
    case Broker(tx) => B.IsProgramTx(tx) && !tx.DeleteRows?
    case CredentialDeleted => true
    case HaltRead(h, _, _) => h !in d.halts
    case HaltCommit(h) => Inserts(d, h)
    case RecoverRead(r, _) => r !in d.recoveries
    case RecoverCommit(r, _) => Clears(d, r)
    case CheckGuardian(c) => c !in d.checks && S.At(d.execution, c, S.AtPreflight)
    case CheckStatus(c, _) => c in d.checks && d.checks[c] == GuardianPassed && S.At(d.execution, c, S.AtPreflight)
    case CheckAccount(c) => c in d.checks && d.checks[c] == StatusPassed && S.At(d.execution, c, S.AtPreflight)
    case Execution(x) => x.Preflight? ==> x.c in d.checks && d.checks[x.c] == Answered(x.allowed)
  }

  function Step(d: Desk, e: Event): Desk {
    if !Enabled(d, e) then d else
    match e
    case Broker(tx) => d.(broker := B.PostgresStep(d.broker, tx))
    case CredentialDeleted => d.(broker := B.EMPTY, incidents := map[])
    case HaltRead(h, reason, at) =>
      d.(halts := d.halts[h := if Allowed(d.incidents) then Inserting(reason, at) else HaltDone])
    case HaltCommit(h) =>
      d.(incidents := Inserted(d.incidents, h, d.halts[h].reason, d.halts[h].at),
         halts := d.halts[h := HaltDone])
    case RecoverRead(r, now) =>
      d.(recoveries := d.recoveries[r := if IsKnown(d.broker, now) then BrokerKnown else RecoveryDone])
    case RecoverCommit(r, at) =>
      d.(incidents := Recovered(d.incidents, at), recoveries := d.recoveries[r := RecoveryDone])
    case CheckGuardian(c) =>
      d.(checks := d.checks[c := if Allowed(d.incidents) then GuardianPassed else Answered(false)])
    case CheckStatus(c, now) =>
      d.(checks := d.checks[c := if StatusPasses(d.broker, now) then StatusPassed else Answered(false)])
    case CheckAccount(c) =>
      d.(checks := d.checks[c := Answered(AccountPasses(d.broker))])
    case Execution(x) => d.(execution := S.Step(d.execution, x))
  }

  function After(es: seq<Event>): Desk {
    if es == [] then START else Step(After(es[..|es| - 1]), es[|es| - 1])
  }

  lemma AfterPrefix(es: seq<Event>, i: nat)
    requires i < |es|
    ensures After(es[..i + 1]) == Step(After(es[..i]), es[i])
  {
    assert es[..i + 1][..i] == es[..i];
  }

  /** The three reads together are the gate of the projection. */
  lemma ReadsAreTheGate(p: B.Projection, now: int)
    ensures B.Gate(p, now, B.MAXIMUM_AGE) == B.Open <==> StatusPasses(p, now) && AccountPasses(p)
  {
    B.OpenMeans(p, now, B.MAXIMUM_AGE);
  }

  // ----- Halts -----

  /** The event at `j` ends a halt: a recovery that read a known broker state, or a
      deletion of the broker credential. */
  predicate Lifts(es: seq<Event>, j: int)
    requires 0 <= j < |es|
  {
    es[j].CredentialDeleted? || (es[j].RecoverCommit? && Clears(After(es[..j]), es[j].r))
  }

  predicate CommitsHalt(es: seq<Event>, i: int)
    requires 0 <= i < |es|
  {
    es[i].HaltCommit? && Inserts(After(es[..i]), es[i].h)
  }

  lemma PrefixFacts(es: seq<Event>, i: int)
    requires 0 <= i < |es| - 1
    ensures var init := es[..|es| - 1];
      && init[i] == es[i] && init[..i] == es[..i]
      && (Lifts(init, i) <==> Lifts(es, i)) && (CommitsHalt(init, i) <==> CommitsHalt(es, i))
  {
    assert es[..|es| - 1][..i] == es[..i];
  }

  /** A committed halt's incident stays active until something lifts it. */
  lemma {:induction false} HaltStaysUntilLifted(es: seq<Event>, i: nat)
    requires i < |es| && CommitsHalt(es, i)
    requires forall j :: i < j < |es| ==> !Lifts(es, j)
    ensures IsActive(After(es).incidents, es[i].h)
    decreases |es|
  {
    var n := |es| - 1;
    AfterPrefix(es, n);
    assert es[..n + 1] == es;
    if i < n {
      PrefixFacts(es, i);
      forall j | i < j < n ensures !Lifts(es[..n], j) { PrefixFacts(es, j); }
      HaltStaysUntilLifted(es[..n], i);
      assert !Lifts(es, n);
    }
  }

  /** Execution is refused from the commit of an incident until a recovery with known
      broker state or a deletion of the credential. */
  lemma HaltHolds(es: seq<Event>, i: nat)
    requires i < |es| && CommitsHalt(es, i) && Allowed(After(es).incidents)
    ensures exists j :: i < j < |es| && Lifts(es, j)
  {
    if forall j :: i < j < |es| ==> !Lifts(es, j) {
      HaltStaysUntilLifted(es, i);
    }
  }

  /** The halt `h` has read the incidents at event `k`, and has not committed since. */
  predicate AwaitsInsert(es: seq<Event>, k: int, h: nat, reason: string, at: int) {
    && 0 <= k < |es| && es[k] == HaltRead(h, reason, at) && h !in After(es[..k]).halts
    && (forall j | k < j < |es| :: es[j] != HaltCommit(h))
  }

  lemma HaltStays(d: Desk, e: Event, h: nat)
    requires h in d.halts && e != HaltCommit(h)
    ensures h in Step(d, e).halts && Step(d, e).halts[h] == d.halts[h]
  {
  }

  lemma {:induction false} HaltKeepsItsReading(es: seq<Event>, k: nat, h: nat, reason: string, at: int)
    requires AwaitsInsert(es, k, h, reason, at)
    ensures h in After(es).halts
    ensures After(es).halts[h] == if Allowed(After(es[..k]).incidents) then Inserting(reason, at) else HaltDone
    decreases |es|
  {
    var n := |es| - 1;
    AfterPrefix(es, n);
    assert es[..n + 1] == es;
    if k < n {
      assert es[..n][..k] == es[..k];
      HaltKeepsItsReading(es[..n], k, h, reason, at);
      HaltStays(After(es[..n]), es[n], h);
    }
  }

  /** A halt that read the incidents at event `k` goes on to insert its own exactly when none
      was active there, however many others have been inserted since. */
  lemma HaltInsertsIff(es: seq<Event>, k: nat, h: nat, reason: string, at: int)
    requires AwaitsInsert(es, k, h, reason, at)
    ensures var read, before, after := After(es[..k]).incidents, After(es), After(es + [HaltCommit(h)]);
      after.incidents == if forall id | id in read :: read[id].clearedAt.Some?
                         then before.incidents[h := Incident(Halted, reason, at, None)] else before.incidents
  {
    HaltKeepsItsReading(es, k, h, reason, at);
    AfterOne(es, HaltCommit(h));
  }

  /** The deletion of the credential forgets the broker's rows and all incidents. */
  lemma DeletionForgets(d: Desk)
    ensures var t := Step(d, CredentialDeleted);
      && t.broker.row.None? && t.broker.account.None? && t.broker.positions == map[] && t.broker.orders == map[]
      && t.incidents == map[] && t.execution == d.execution
  {
  }

  /** A recovery that clears read a reconciled, connected and fresh status before. */
  lemma {:induction false} ClearingReadKnownState(es: seq<Event>, r: nat)
    requires Clears(After(es), r)
    ensures exists k :: 0 <= k < |es| && es[k].RecoverRead? && es[k].r == r
              && Enabled(After(es[..k]), es[k]) && IsKnown(After(es[..k]).broker, es[k].now)
    decreases |es|
  {
    var n := |es| - 1;
    if es[n].RecoverRead? && es[n].r == r && Enabled(After(es[..n]), es[n]) {
      assert Enabled(After(es[..n]), es[n]) && IsKnown(After(es[..n]).broker, es[n].now);
    } else {
      ClearingReadKnownState(es[..n], r);
      var k :| 0 <= k < n && es[..n][k].RecoverRead? && es[..n][k].r == r
        && Enabled(After(es[..n][..k]), es[..n][k]) && IsKnown(After(es[..n][..k]).broker, es[..n][k].now);
      assert es[..n][..k] == es[..k] && es[k] == es[..n][k];
    }
  }

  /** What a recovery needs to find, written out. */
  lemma KnownMeans(p: B.Projection, now: int)
    ensures IsKnown(p, now) <==>
      && p.row.Some? && p.row.value.state == B.Reconciled && p.row.value.streamConnected
      && p.row.value.lastReconciledAt.Some? && now - p.row.value.lastReconciledAt.value <= 90
  {
  }

  /** The recovery `r` has read the status at event `k`, and has not committed since. */
  predicate AwaitsCommit(es: seq<Event>, k: int, r: nat, now: int) {
    && 0 <= k < |es| && es[k] == RecoverRead(r, now) && r !in After(es[..k]).recoveries
    && (forall j | k < j < |es| :: !es[j].RecoverCommit? || es[j].r != r)
  }

  lemma RecoveryStays(d: Desk, e: Event, r: nat)
    requires r in d.recoveries && (!e.RecoverCommit? || e.r != r)
    ensures r in Step(d, e).recoveries && Step(d, e).recoveries[r] == d.recoveries[r]
  {
  }

  lemma {:induction false} RecoveryKeepsItsReading(es: seq<Event>, k: nat, r: nat, now: int)
    requires AwaitsCommit(es, k, r, now)
    ensures r in After(es).recoveries && (Clears(After(es), r) <==> IsKnown(After(es[..k]).broker, now))
    decreases |es|
  {
    var n := |es| - 1;
    AfterPrefix(es, n);
    assert es[..n + 1] == es;
    if k < n {
      assert es[..n][..k] == es[..k];
      RecoveryKeepsItsReading(es[..n], k, r, now);
      RecoveryStays(After(es[..n]), es[n], r);
    }
  }

  /** A recovery that read the broker status at event `k` goes on to clear exactly when that
      status was reconciled, connected and at most 90 seconds old; it then clears every active
      incident, and otherwise its commit does nothing. */
  lemma RecoveryClearsIff(es: seq<Event>, k: nat, r: nat, now: int, at: int)
    requires AwaitsCommit(es, k, r, now)
    ensures var row := After(es[..k]).broker.row; var before, after := After(es), After(es + [RecoverCommit(r, at)]);
      var known := row.Some? && row.value.state == B.Reconciled && row.value.streamConnected
                   && row.value.lastReconciledAt.Some? && now - row.value.lastReconciledAt.value <= 90;
      if known then
        && after.incidents.Keys == before.incidents.Keys
        && (forall id | id in before.incidents :: after.incidents[id] ==
              if before.incidents[id].clearedAt.None?
              then before.incidents[id].(state := Normal, clearedAt := Some(at)) else before.incidents[id])
      else
        after == before
  {
    KnownMeans(After(es[..k]).broker, now);
    RecoveryKeepsItsReading(es, k, r, now);
    AfterOne(es, RecoverCommit(r, at));
    RecoveryClearsExactlyTheActive(After(es).incidents, at);
  }

  /** What the status read of a preflight needs to find, written out. */
  lemma StatusPassesMeans(p: B.Projection, now: int)
    ensures StatusPasses(p, now) <==>
      && p.row.Some? && p.row.value.state == B.Reconciled && p.row.value.streamConnected
      && p.row.value.lastReconciledAt.Some? && now - p.row.value.lastReconciledAt.value <= 90
  {
  }

  // ----- Cleared incidents -----

  lemma {:induction false} IncidentsAreFromDoneHalts(es: seq<Event>)
    ensures forall id :: id in After(es).incidents ==>
      id in After(es).halts && After(es).halts[id] == HaltDone
    decreases |es|
  {
    if es != [] { IncidentsAreFromDoneHalts(es[..|es| - 1]); }
  }

  lemma DoneHaltStaysDone(d: Desk, e: Event, h: nat)
    requires h in d.halts && d.halts[h] == HaltDone
    ensures h in Step(d, e).halts && Step(d, e).halts[h] == HaltDone
  {
  }

  lemma {:induction false} DoneHaltsStayDone(es: seq<Event>, more: seq<Event>, h: nat)
    requires h in After(es).halts && After(es).halts[h] == HaltDone
    ensures h in After(es + more).halts && After(es + more).halts[h] == HaltDone
    decreases |more|
  {
    if more == [] {
      assert es + more == es;
    } else {
      var init := more[..|more| - 1];
      assert (es + more)[..|es + more| - 1] == es + init;
      DoneHaltsStayDone(es, init, h);
      DoneHaltStaysDone(After(es + init), more[|more| - 1], h);
    }
  }

  /** A row that is cleared, and whose halt is done, is left alone or deleted. */
  lemma ClearedStays(d: Desk, e: Event, id: nat, row: Incident)
    requires id in d.halts && d.halts[id] == HaltDone && row.clearedAt.Some?
    requires id in d.incidents ==> d.incidents[id] == row
    ensures id in Step(d, e).incidents ==> Step(d, e).incidents[id] == row
  {
  }

  /** A cleared incident never becomes active again: its row stays as it is, or is deleted
      for good. */
  lemma {:induction false} ClearedForEver(es: seq<Event>, more: seq<Event>, id: nat)
    requires id in After(es).incidents && !IsActive(After(es).incidents, id)
    ensures id in After(es + more).incidents ==> After(es + more).incidents[id] == After(es).incidents[id]
    decreases |more|
  {
    if more == [] {
      assert es + more == es;
    } else {
      var init := more[..|more| - 1];
      assert (es + more)[..|es + more| - 1] == es + init;
      ClearedForEver(es, init, id);
      IncidentsAreFromDoneHalts(es);
      DoneHaltsStayDone(es, init, id);
      ClearedStays(After(es + init), more[|more| - 1], id, After(es).incidents[id]);
    }
  }

  // ----- The joint preflight -----

  predicate Passed(d: Desk, c: nat) {
    c in d.checks && d.checks[c] == Answered(true)
  }

  /** Check `c` read the Guardian at event `g`, the status at `s` and the account at `a`,
      and each read passed in the state it saw. */
  ghost predicate ReadsPassed(es: seq<Event>, c: nat, g: int, s: int, a: int) {
    && 0 <= g < s < a < |es|
    && GuardianReadPassed(es, c, g)
    && StatusReadPassed(es, c, s)
    && es[a] == CheckAccount(c) && Enabled(After(es[..a]), es[a]) && AccountPasses(After(es[..a]).broker)
  }

  ghost predicate GuardianReadPassed(es: seq<Event>, c: nat, g: int) {
    && 0 <= g < |es| && es[g] == CheckGuardian(c) && Enabled(After(es[..g]), es[g])
    && Allowed(After(es[..g]).incidents)
  }

  ghost predicate StatusReadPassed(es: seq<Event>, c: nat, s: int) {
    && 0 <= s < |es| && es[s].CheckStatus? && es[s].c == c && Enabled(After(es[..s]), es[s])
    && StatusPasses(After(es[..s]).broker, es[s].now)
  }

  lemma {:induction false} GuardianWasRead(es: seq<Event>, c: nat) returns (g: int)
    requires c in After(es).checks && After(es).checks[c] == GuardianPassed
    ensures GuardianReadPassed(es, c, g)
    decreases |es|
  {
    var n := |es| - 1;
    if es[n] == CheckGuardian(c) && Enabled(After(es[..n]), es[n]) {
      g := n;
    } else {
      g := GuardianWasRead(es[..n], c);
      assert es[..n][..g] == es[..g];
    }
  }

  lemma {:induction false} StatusWasRead(es: seq<Event>, c: nat) returns (g: int, s: int)
    requires c in After(es).checks && After(es).checks[c] == StatusPassed
    ensures g < s && GuardianReadPassed(es, c, g) && StatusReadPassed(es, c, s)
    decreases |es|
  {
    var n := |es| - 1;
    if es[n].CheckStatus? && es[n].c == c && Enabled(After(es[..n]), es[n]) {
      s := n;
      g := GuardianWasRead(es[..n], c);
      assert es[..n][..g] == es[..g];
    } else {
      g, s := StatusWasRead(es[..n], c);
      assert es[..n][..g] == es[..g] && es[..n][..s] == es[..s];
    }
  }

  /** A passing preflight made its three reads in order, each in a state that passes it. */
  lemma {:induction false} PassingCheckReadOpenGates(es: seq<Event>, c: nat) returns (g: int, s: int, a: int)
    requires Passed(After(es), c)
    ensures ReadsPassed(es, c, g, s, a)
    decreases |es|
  {
    var n := |es| - 1;
    if es[n] == CheckAccount(c) && Enabled(After(es[..n]), es[n]) {
      a := n;
      g, s := StatusWasRead(es[..n], c);
      assert es[..n][..g] == es[..g] && es[..n][..s] == es[..s];
    } else {
      g, s, a := PassingCheckReadOpenGates(es[..n], c);
      assert es[..n][..g] == es[..g] && es[..n][..s] == es[..s] && es[..n][..a] == es[..a];
    }
  }

  // ----- What precedes a passing status read -----

  /** The event leaves the broker not reconciled: a mark, a disconnect or a deletion. */
  predicate Unreconciles(e: Event) {
    || e.CredentialDeleted?
    || (e.Broker? && B.IsProgramTx(e.tx) && (e.tx.MarkState? || e.tx == B.SetStream(false)))
  }

  predicate Applies(e: Event) {
    e.Broker? && e.tx.Apply? && B.KeysAreUnique(e.tx.snapshot)
  }

  lemma BrokerStep(d: Desk, e: Event)
    ensures var p, q := B.StatusOf(d.broker), B.StatusOf(Step(d, e).broker);
      && (Unreconciles(e) ==> q.state != B.Reconciled)
      && (!Applies(e) && q.state == B.Reconciled ==>
            p.state == B.Reconciled && q.lastReconciledAt == p.lastReconciledAt)
      && (Applies(e) ==> q.lastReconciledAt == Some(e.tx.snapshot.reconciledAt))
  {
    if e.Broker? && Enabled(d, e) { B.StateAfterStep(d.broker, e.tx); }
  }

  /** A reconciled state goes back to one apply, which set its time, after every earlier
      mark, disconnect or deletion. */
  lemma {:induction false} ReconciledGoesBackToApply(es: seq<Event>) returns (j: int)
    requires B.StatusOf(After(es).broker).state == B.Reconciled
    ensures 0 <= j < |es| && Applies(es[j])
    ensures B.StatusOf(After(es).broker).lastReconciledAt == Some(es[j].tx.snapshot.reconciledAt)
    ensures forall i :: j < i < |es| ==> !Unreconciles(es[i])
    decreases |es|
  {
    var n := |es| - 1;
    BrokerStep(After(es[..n]), es[n]);
    if Applies(es[n]) {
      j := n;
    } else {
      j := ReconciledGoesBackToApply(es[..n]);
    }
  }

  /** After a deletion of the credential (or any other closing event) the joint preflight
      stays closed until a new apply: whatever passes reads its status after that apply,
      within the maximum age of it. */
  lemma ClosedUntilApply(es: seq<Event>, i: nat, c: nat)
    returns (j: int, s: int)
    requires i < |es| && Unreconciles(es[i]) && Passed(After(es), c)
    requires c !in After(es[..i]).checks
    ensures i < j < s < |es| && Applies(es[j]) && StatusReadPassed(es, c, s)
    ensures es[s].now - es[j].tx.snapshot.reconciledAt <= B.MAXIMUM_AGE
  {
    var g, a;
    g, s, a := PassingCheckReadOpenGates(es, c);
    LateCheckReadsLate(es, i, c, g);
    j := ReconciledGoesBackToApply(es[..s]);
    assert es[..s][i] == es[i];
  }

  lemma CheckStays(d: Desk, e: Event, c: nat)
    requires c in d.checks
    ensures c in Step(d, e).checks
  {
  }

  lemma {:induction false} ChecksStay(es: seq<Event>, i: nat, c: nat)
    requires i <= |es| && c in After(es[..i]).checks
    ensures c in After(es).checks
    decreases |es|
  {
    if i < |es| {
      assert es[..|es| - 1][..i] == es[..i];
      ChecksStay(es[..|es| - 1], i, c);
      CheckStays(After(es[..|es| - 1]), es[|es| - 1], c);
    } else {
      assert es[..i] == es;
    }
  }

  /** A check that had not begun before event `i` reads the Guardian at `i` or later. */
  lemma LateCheckReadsLate(es: seq<Event>, i: nat, c: nat, g: int)
    requires i < |es| && c !in After(es[..i]).checks && GuardianReadPassed(es, c, g)
    ensures g >= i
  {
    if g < i {
      AfterPrefix(es, g);
      assert c in After(es[..g + 1]).checks;
      assert es[..i][..g + 1] == es[..g + 1];
      ChecksStay(es[..i], g + 1, c);
    }
  }

  // ----- Halts between the Guardian read and the request -----

  /** Every halt committed at or after event `g` has been lifted since. */
  predicate LaterHaltsAreLifted(es: seq<Event>, g: int)
    requires 0 <= g
  {
    forall i | g <= i < |es| && CommitsHalt(es, i) :: exists j :: i < j < |es| && Lifts(es, j)
  }

  lemma IncidentStep(d: Desk, e: Event, id: nat)
    requires IsActive(Step(d, e).incidents, id)
    ensures (IsActive(d.incidents, id) && !e.CredentialDeleted? && !(e.RecoverCommit? && Clears(d, e.r)))
            || (e == HaltCommit(id) && Inserts(d, id))
  {
  }

  /** An incident that became active since event `g` is that of a halt not lifted since. */
  lemma {:induction false} ActiveWasCommitted(es: seq<Event>, g: nat, id: nat) returns (i: int)
    requires g <= |es| && Allowed(After(es[..g]).incidents) && IsActive(After(es).incidents, id)
    ensures g <= i < |es| && CommitsHalt(es, i)
    ensures forall j :: i < j < |es| ==> !Lifts(es, j)
    decreases |es|
  {
    assert es[..|es|] == es;
    var n := |es| - 1;
    assert g <= n;
    IncidentStep(After(es[..n]), es[n], id);
    if es[n] == HaltCommit(id) && Inserts(After(es[..n]), id) {
      i := n;
    } else {
      assert es[..n][..g] == es[..g];
      i := ActiveWasCommitted(es[..n], g, id);
      PrefixFacts(es, i);
      forall j | i < j < |es| ensures !Lifts(es, j) {
        if j < n { PrefixFacts(es, j); }
      }
    }
  }

  /** After an allowed read of the Guardian at `g`, execution is allowed exactly when every
      halt committed since has been lifted. */
  lemma AllowedIffLifted(es: seq<Event>, g: nat)
    requires g <= |es| && Allowed(After(es[..g]).incidents)
    ensures Allowed(After(es).incidents) <==> LaterHaltsAreLifted(es, g)
  {
    if Allowed(After(es).incidents) {
      forall i | g <= i < |es| && CommitsHalt(es, i) ensures exists j :: i < j < |es| && Lifts(es, j) {
        HaltHolds(es, i);
      }
    } else {
      var id :| id in After(es).incidents && IsActive(After(es).incidents, id);
      var i := ActiveWasCommitted(es, g, id);
    }
  }

  // ----- Submissions -----

  predicate Begins(es: seq<Event>, b: int, c: nat)
    requires 0 <= b < |es|
  {
    es[b].Execution? && es[b].e.BeginExecute? && es[b].e.c == c && c !in After(es[..b]).execution.calls
  }

  lemma AwaitingStep(s: S.System, e: S.Event, c: nat)
    requires S.At(S.Step(s, e), c, S.AtPreflight)
    ensures S.At(s, c, S.AtPreflight) || (e.BeginExecute? && e.c == c && c !in s.calls)
  {
  }

  /** A call that awaits its preflight began before. */
  lemma {:induction false} AwaitingHasBegun(es: seq<Event>, c: nat) returns (b: int)
    requires S.At(After(es).execution, c, S.AtPreflight)
    ensures 0 <= b < |es| && Begins(es, b, c)
    decreases |es|
  {
    var n := |es| - 1;
    ExecutionStep(After(es[..n]), es[n]);
    if S.At(After(es[..n]).execution, c, S.AtPreflight) {
      b := AwaitingHasBegun(es[..n], c);
      assert es[..n][..b] == es[..b];
    } else {
      AwaitingStep(After(es[..n]).execution, es[n].e, c);
      b := n;
    }
  }

  lemma ExecutionStep(d: Desk, e: Event)
    ensures Step(d, e).execution ==
      if e.Execution? && Enabled(d, e) then S.Step(d.execution, e.e) else d.execution
    ensures forall c :: Passed(d, c) ==> Passed(Step(d, e), c)
  {
  }

  lemma {:induction false} GuardedForEver(es: seq<Event>)
    ensures After(es).execution.guarded
    decreases |es|
  {
    if es != [] {
      var d := After(es[..|es| - 1]);
      var e := es[|es| - 1];
      GuardedForEver(es[..|es| - 1]);
      ExecutionStep(d, e);
      if e.Execution? { S.StepFacts(d.execution, e.e); }
    }
  }

  /** A call past its preflight has an answer of the joint preflight, and it was positive. */
  lemma {:induction false} SubmitterPassed(es: seq<Event>, c: nat)
    requires S.PastPreflight(After(es).execution, c)
    ensures Passed(After(es), c)
    decreases |es|
  {
    var d := After(es[..|es| - 1]);
    var e := es[|es| - 1];
    GuardedForEver(es[..|es| - 1]);
    ExecutionStep(d, e);
    if e.Execution? { S.StepFacts(d.execution, e.e); }
    if S.PastPreflight(d.execution, c) {
      SubmitterPassed(es[..|es| - 1], c);
    } else {
      assert Enabled(d, e);
    }
  }

  /** The main safety property: when a request goes on the wire, the submitting call has,
      in this order and before, begun, read a Guardian with no active incident, a
      reconciled, connected and fresh status, and an unblocked account; every halt committed
      before the Guardian read had been lifted before it, and no incident is active at the
      request exactly when those committed since have been lifted as well. */
  lemma SubmissionIsSafe(es: seq<Event>, n: nat) returns (c: nat, b: int, g: int, s: int, a: int)
    requires n < |es| && After(es[..n + 1]).execution.wire != After(es[..n]).execution.wire
    ensures es[n] == Execution(S.Submit(c)) && a < n && ReadsPassed(es, c, g, s, a)
    ensures 0 <= b < g && Begins(es, b, c)
    ensures forall i :: 0 <= i < g && CommitsHalt(es, i) ==> exists j :: i < j < g && Lifts(es, j)
    ensures Allowed(After(es[..n]).incidents) <==> LaterHaltsAreLifted(es[..n], g)
  {
    AfterPrefix(es, n);
    ExecutionStep(After(es[..n]), es[n]);
    S.StepFacts(After(es[..n]).execution, es[n].e);
    c := es[n].e.c;
    SubmitterPassed(es[..n], c);
    g, s, a := PassingCheckReadOpenGates(es[..n], c);
    assert es[..n][..g] == es[..g] && es[..n][..s] == es[..s] && es[..n][..a] == es[..a];
    b := AwaitingHasBegun(es[..g], c);
    assert es[..g][..b] == es[..b];
    EarlierHaltsWereLifted(es, g);
    AllowedIffLifted(es[..n], g);
  }

  /** What an allowed read of the Guardian at `g` says about the halts before it. */
  lemma EarlierHaltsWereLifted(es: seq<Event>, g: nat)
    requires g < |es| && Allowed(After(es[..g]).incidents)
    ensures forall i :: 0 <= i < g && CommitsHalt(es, i) ==> exists j :: i < j < g && Lifts(es, j)
  {
    forall i | 0 <= i < g && CommitsHalt(es, i) ensures exists j :: i < j < g && Lifts(es, j) {
      assert es[..g][..i] == es[..i];
      assert CommitsHalt(es[..g], i);
      HaltHolds(es[..g], i);
      var j :| i < j < g && Lifts(es[..g], j);
      assert es[..g][..j] == es[..j] && es[..g][j] == es[j];
      assert Lifts(es, j);
    }
  }

  /** The events of a desk run that reach the execution engine. */
  function ExecutionEvents(es: seq<Event>): seq<S.Event> {
    if es == [] then [] else
    var init := es[..|es| - 1];
    var last := es[|es| - 1];
    ExecutionEvents(init)
    + if last.Execution? && Enabled(After(init), last) then [last.e] else []
  }

  lemma {:induction false} ExecutionIsAProtocolRun(es: seq<Event>)
    ensures After(es).execution == S.After(true, ExecutionEvents(es))
    decreases |es|
  {
    if es != [] {
      var init := es[..|es| - 1];
      var last := es[|es| - 1];
      ExecutionIsAProtocolRun(init);
      if last.Execution? && Enabled(After(init), last) {
        S.AfterSnoc(true, ExecutionEvents(init), last.e);
      } else {
        assert ExecutionEvents(es) == ExecutionEvents(init);
      }
      ExecutionStep(After(init), last);
    }
  }

  /** On the desk too an order is submitted at most once. */
  lemma DeskSubmitsAtMostOnce(es: seq<Event>)
    ensures var w := After(es).execution.wire; forall i, j :: 0 <= i < j < |w| ==> w[i].id != w[j].id
  {
    ExecutionIsAProtocolRun(es);
    S.SubmittedAtMostOnce(true, ExecutionEvents(es));
  }

  // ----- The limit of the guarantee -----

  /** A call begins and its preflight passes, then a halt commits, then the call goes on. */
  function HaltTooLate(id: string, snapshot: B.Snapshot): seq<Event> {
    []
    + [Broker(B.SetStream(true)), Broker(B.Apply(snapshot)), Execution(S.BeginExecute(0, id))]
    + [CheckGuardian(0), CheckStatus(0, snapshot.reconciledAt), CheckAccount(0)]
    + [HaltRead(0, "kill switch", 0), HaltCommit(0)]
    + [Execution(S.Preflight(0, true)), Execution(S.Reserve(0)), Execution(S.Submit(0))]
  }

  lemma AfterOne(es: seq<Event>, x: Event)
    ensures After(es + [x]) == Step(After(es), x)
  {
    assert (es + [x])[..|es|] == es;
  }

  lemma AfterTwo(es: seq<Event>, x: Event, y: Event)
    ensures After(es + [x, y]) == Step(Step(After(es), x), y)
  {
    AfterOne(es, x);
    AfterOne(es + [x], y);
    assert es + [x] + [y] == es + [x, y];
  }

  lemma AfterThree(es: seq<Event>, x: Event, y: Event, z: Event)
    ensures After(es + [x, y, z]) == Step(Step(Step(After(es), x), y), z)
  {
    AfterTwo(es, x, y);
    AfterOne(es + [x, y], z);
    assert es + [x, y] + [z] == es + [x, y, z];
  }

  lemma ApplyOpens(d: Desk, snapshot: B.Snapshot)
    requires !B.IsBlocked(snapshot.account) && B.KeysAreUnique(snapshot)
    ensures var x := Step(Step(d, Broker(B.SetStream(true))), Broker(B.Apply(snapshot)));
      && x == d.(broker := x.broker)
      && StatusPasses(x.broker, snapshot.reconciledAt) && AccountPasses(x.broker)
  {
  }

  lemma CallBegins(d: Desk, id: string)
    requires d.execution == START.execution
    ensures Step(d, Execution(S.BeginExecute(0, id))) == d.(execution := Waiting(id))
  {
  }

  /** The one call is at its preflight. */
  function Waiting(id: string): S.System {
    START.execution.(calls := map[0 := S.Call(id, S.AtPreflight)])
  }

  lemma OpenCheckPasses(d: Desk, now: int)
    requires Allowed(d.incidents) && 0 !in d.checks && StatusPasses(d.broker, now) && AccountPasses(d.broker)
    requires S.At(d.execution, 0, S.AtPreflight)
    ensures var x := Step(Step(Step(d, CheckGuardian(0)), CheckStatus(0, now)), CheckAccount(0));
      Passed(x, 0) && x == d.(checks := x.checks)
  {
  }

  lemma HaltTakesTwoSteps(d: Desk, reason: string, at: int)
    requires Allowed(d.incidents) && 0 !in d.halts
    ensures var x := Step(Step(d, HaltRead(0, reason, at)), HaltCommit(0));
      !Allowed(x.incidents) && x == d.(incidents := x.incidents, halts := x.halts)
  {
    assert IsActive(Step(Step(d, HaltRead(0, reason, at)), HaltCommit(0)).incidents, 0);
  }

  lemma SubmitTakesThreeSteps(d: Desk, id: string)
    requires Passed(d, 0) && d.execution == Waiting(id)
    ensures var reserved := Step(Step(d, Execution(S.Preflight(0, true))), Execution(S.Reserve(0)));
      var x := Step(reserved, Execution(S.Submit(0)));
      x.incidents == d.incidents && x.execution.wire == [S.Request(0, id)]
  {
  }

  /** A halt that commits after the Guardian read does not stop that call: here the
      request goes out while an incident is active. */
  lemma HaltAfterTheCheckIsNotSeen(id: string, account: B.Account, now: int)
    requires !B.IsBlocked(account)
    ensures var d := After(HaltTooLate(id, B.Snapshot(account, [], [], now)));
      !Allowed(d.incidents) && d.execution.wire == [S.Request(0, id)]
  {
    var snapshot := B.Snapshot(account, [], [], now);
    var x3 := [] + [Broker(B.SetStream(true)), Broker(B.Apply(snapshot)), Execution(S.BeginExecute(0, id))];
    AfterThree([], Broker(B.SetStream(true)), Broker(B.Apply(snapshot)), Execution(S.BeginExecute(0, id)));
    ApplyOpens(START, snapshot);
    CallBegins(Step(Step(START, Broker(B.SetStream(true))), Broker(B.Apply(snapshot))), id);
    var x6 := x3 + [CheckGuardian(0), CheckStatus(0, now), CheckAccount(0)];
    AfterThree(x3, CheckGuardian(0), CheckStatus(0, now), CheckAccount(0));
    OpenCheckPasses(After(x3), now);
    var x8 := x6 + [HaltRead(0, "kill switch", 0), HaltCommit(0)];
    AfterTwo(x6, HaltRead(0, "kill switch", 0), HaltCommit(0));
    HaltTakesTwoSteps(After(x6), "kill switch", 0);
    AfterThree(x8, Execution(S.Preflight(0, true)), Execution(S.Reserve(0)), Execution(S.Submit(0)));
    SubmitTakesThreeSteps(After(x8), id);
  }
}
