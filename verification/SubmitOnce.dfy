/** The submit-once protocol of packages/execution.

    Any number of `execute` and `reconcile_uncertain` calls run concurrently.
    Each call is a program counter that moves at the awaits of the source; a
    run is any sequence of events, so it covers every interleaving, crashes and
    cancellations between awaits, and a broker that accepts an order and loses
    the reply. An event that is not enabled leaves the system as it is. */
module SubmitOnce {

  import opened Common

  datatype ExecutionState =
    | Created | RiskApproved | SubmissionStarted | SubmissionUncertain | Accepted
    | Rejected | Canceled | PartiallyFilled | Filled

  /** How a call ends. `Interrupted` is a crash, a cancellation or a failing store. */
  datatype Outcome = Blocked | Duplicate | Returned | Raised | NotUncertain | NotFound | Interrupted

  /** The next await of a call; the first six belong to `execute`. */
  datatype Pc =
    | AtPreflight | AtReserve | AtSubmit | AwaitingReply | GotOrder | GotError
    | AtReadState | AtQuery | FoundOrder
    | Ended(outcome: Outcome)

  datatype Call = Call(id: string, pc: Pc)

  /** One request that `submit_order` put on the wire, and the call that sent it. */
  datatype Request = Request(call: nat, id: string)

  /** `states` is the intent store, `wire` every `submit_order` request ever sent,
      `held` the client order ids for which the broker holds an order. */
  datatype System = System(
    guarded: bool,
    calls: map<nat, Call>,
    states: map<string, ExecutionState>,
    wire: seq<Request>,
    held: set<string>)

  datatype Event =
    | BeginExecute(c: nat, id: string)
    | Preflight(c: nat, allowed: bool)
    | Reserve(c: nat)
    | Submit(c: nat)
    | BrokerAccepts(id: string)
    | ReplyOrder(c: nat)
    | ReplyError(c: nat)
    | RecordReply(c: nat)
    | BeginReconcile(c: nat, id: string)
    | ReadState(c: nat)
    | Query(c: nat, found: bool)
    | RecordFound(c: nat)
    | Crash(c: nat)

  function Idle(guarded: bool, states: map<string, ExecutionState>): System {
    System(guarded, map[], states, [], {})
  }

  predicate At(s: System, c: nat, pc: Pc) {
    c in s.calls && s.calls[c].pc == pc
  }

  predicate OnWire(s: System, id: string) {
    exists k :: 0 <= k < |s.wire| && s.wire[k].id == id
  }

  /** The broker answers only with orders it holds, and holds only what was sent. */
  predicate Enabled(s: System, e: Event) {
    match e
    case BeginExecute(c, _) => c !in s.calls
    case BeginReconcile(c, _) => c !in s.calls
    case Preflight(c, _) => At(s, c, AtPreflight)
    case Reserve(c) => At(s, c, AtReserve)
    case Submit(c) => At(s, c, AtSubmit)
    case BrokerAccepts(id) => OnWire(s, id)
    case ReplyOrder(c) => At(s, c, AwaitingReply) && s.calls[c].id in s.held
    case ReplyError(c) => At(s, c, AwaitingReply)
    case RecordReply(c) => At(s, c, GotOrder) || At(s, c, GotError)
    case ReadState(c) => At(s, c, AtReadState)
    case Query(c, found) => At(s, c, AtQuery) && (found ==> s.calls[c].id in s.held)
    case RecordFound(c) => At(s, c, FoundOrder)
    case Crash(c) => c in s.calls && !s.calls[c].pc.Ended?
  }

  function Goto(s: System, c: nat, pc: Pc): System
    requires c in s.calls
  {
    s.(calls := s.calls[c := s.calls[c].(pc := pc)])
  }

  function Store(s: System, id: string, state: ExecutionState): System {
    s.(states := s.states[id := state])
  }

  function Step(s: System, e: Event): System {
    if !Enabled(s, e) then s else
    match e
    case BeginExecute(c, id) =>
      s.(calls := s.calls[c := Call(id, if s.guarded then AtPreflight else AtReserve)])
    case BeginReconcile(c, id) => s.(calls := s.calls[c := Call(id, AtReadState)])
    case Preflight(c, allowed) => Goto(s, c, if allowed then AtReserve else Ended(Blocked))
    case Reserve(c) =>
      if s.calls[c].id in s.states then Goto(s, c, Ended(Duplicate))
      else Store(Goto(s, c, AtSubmit), s.calls[c].id, SubmissionStarted)
    case Submit(c) => Goto(s, c, AwaitingReply).(wire := s.wire + [Request(c, s.calls[c].id)])
    case BrokerAccepts(id) => s.(held := s.held + {id})
    case ReplyOrder(c) => Goto(s, c, GotOrder)
    case ReplyError(c) => Goto(s, c, GotError)
    case RecordReply(c) =>
      if s.calls[c].pc == GotOrder then Store(Goto(s, c, Ended(Returned)), s.calls[c].id, Accepted)
      else Store(Goto(s, c, Ended(Raised)), s.calls[c].id, SubmissionUncertain)
    case ReadState(c) =>
      if s.calls[c].id in s.states && s.states[s.calls[c].id] == SubmissionUncertain
      then Goto(s, c, AtQuery) else Goto(s, c, Ended(NotUncertain))
    case Query(c, found) => Goto(s, c, if found then FoundOrder else Ended(NotFound))
    case RecordFound(c) => Store(Goto(s, c, Ended(Returned)), s.calls[c].id, Accepted)
    case Crash(c) => Goto(s, c, Ended(Interrupted))
  }

  function Run(s: System, es: seq<Event>): System {
    if es == [] then s else Step(Run(s, es[..|es| - 1]), es[|es| - 1])
  }

  /** Every state the protocol can reach, from an empty intent store. */
  function After(guarded: bool, es: seq<Event>): System {
    Run(Idle(guarded, map[]), es)
  }

  lemma {:induction false} RunAppend(s: System, es: seq<Event>, more: seq<Event>)
    ensures Run(s, es + more) == Run(Run(s, es), more)
    decreases |more|
  {
    if more == [] {
      assert es + more == es;
    } else {
      var init := more[..|more| - 1];
      RunAppend(s, es, init);
      assert (es + more)[..|es + more| - 1] == es + init;
    }
  }

  // ----- The inductive invariant -----

  /** Reserved the id and has not yet recorded an outcome for it. */
  predicate Owns(call: Call) {
    call.pc in {AtSubmit, AwaitingReply, GotOrder, GotError}
  }

  ghost predicate CallInv(s: System, c: nat)
    requires c in s.calls
  {
    var call := s.calls[c];
    && (Owns(call) ==> call.id in s.states && s.states[call.id] == SubmissionStarted)
    && (call.pc == AtSubmit ==> !OnWire(s, call.id))
    && (call.pc in {AwaitingReply, GotOrder, GotError} ==> OnWire(s, call.id))
    && (call.pc == GotOrder || call.pc == FoundOrder ==> call.id in s.held)
    && (call.pc == AtQuery || call.pc == FoundOrder ==>
          call.id in s.states && s.states[call.id] in {SubmissionUncertain, Accepted})
  }

  ghost predicate IdInv(s: System, id: string) {
    && (id in s.states ==> s.states[id] in {SubmissionStarted, SubmissionUncertain, Accepted})
    && (id in s.states && s.states[id] == Accepted ==> id in s.held)
    && (id in s.states && s.states[id] != SubmissionStarted ==> OnWire(s, id))
    && (id in s.held ==> OnWire(s, id))
    && (OnWire(s, id) ==> id in s.states)
  }

  ghost predicate WireInv(s: System) {
    forall i, j :: 0 <= i < j < |s.wire| ==> s.wire[i].id != s.wire[j].id
  }

  ghost predicate OwnerInv(s: System) {
    forall c, d | c in s.calls && d in s.calls && Owns(s.calls[c]) && Owns(s.calls[d]) ::
      s.calls[c].id == s.calls[d].id ==> c == d
  }

  ghost predicate Inv(s: System) {
    && WireInv(s)
    && OwnerInv(s)
    && (forall c :: c in s.calls ==> CallInv(s, c))
    && (forall id :: IdInv(s, id))
  }

  /** The id that event `e` puts on the wire, if any. */
  predicate Sends(s: System, e: Event, id: string) {
    e.Submit? && Enabled(s, e) && s.calls[e.c].id == id
  }

  lemma WireGrowsBySends(s: System, e: Event, id: string)
    ensures OnWire(Step(s, e), id) <==> OnWire(s, id) || Sends(s, e, id)
  {
    var t := Step(s, e);
    if e.Submit? && Enabled(s, e) {
      assert t.wire[|s.wire|].id == s.calls[e.c].id;
      if OnWire(s, id) {
        var k :| 0 <= k < |s.wire| && s.wire[k].id == id;
        assert t.wire[k].id == id;
      }
    } else {
      assert t.wire == s.wire;
    }
  }

  lemma StepKeepsWire(s: System, e: Event)
    requires Inv(s)
    ensures WireInv(Step(s, e))
  {
    if e.Submit? && Enabled(s, e) {
      assert CallInv(s, e.c);
    } else {
      assert Step(s, e).wire == s.wire;
    }
  }

  lemma StepKeepsOwner(s: System, e: Event)
    requires Inv(s)
    ensures OwnerInv(Step(s, e))
  {
    var t := Step(s, e);
    forall c, d | c in t.calls && d in t.calls && Owns(t.calls[c]) && Owns(t.calls[d]) && t.calls[c].id == t.calls[d].id
      ensures c == d
    {
      if c in s.calls { assert CallInv(s, c); }
      if d in s.calls { assert CallInv(s, d); }
      OwnerWas(s, e, c);
      OwnerWas(s, e, d);
    }
  }

  /** Who owns an id after a step owned it before, or has just reserved it. */
  lemma OwnerWas(s: System, e: Event, c: nat)
    requires c in Step(s, e).calls && Owns(Step(s, e).calls[c])
    ensures var id := Step(s, e).calls[c].id;
      (c in s.calls && Owns(s.calls[c]) && s.calls[c].id == id) || (e == Reserve(c) && Enabled(s, e) && id !in s.states)
  {
  }

  lemma StepKeepsCall(s: System, e: Event, c: nat)
    requires Inv(s) && c in Step(s, e).calls
    ensures CallInv(Step(s, e), c)
  {
    WireGrowsBySends(s, e, Step(s, e).calls[c].id);
    if !Enabled(s, e) {
      assert Step(s, e) == s;
    } else if !e.BrokerAccepts? && e.c == c {
      if c in s.calls { assert CallInv(s, c) && IdInv(s, s.calls[c].id); }
      MovingCall(s, e);
    } else {
      assert c in s.calls && CallInv(s, c) && IdInv(s, s.calls[c].id);
      if !e.BrokerAccepts? && e.c in s.calls { assert CallInv(s, e.c); }
      OthersEffect(s, e, c);
      WaitingCall(s, e, Step(s, e), c);
    }
  }

  lemma MovingCall(s: System, e: Event)
    requires Enabled(s, e) && !e.BrokerAccepts?
    requires e.c in s.calls ==> CallInv(s, e.c) && IdInv(s, s.calls[e.c].id)
    requires var id := Step(s, e).calls[e.c].id; OnWire(Step(s, e), id) <==> OnWire(s, id) || Sends(s, e, id)
    ensures CallInv(Step(s, e), e.c)
  {
  }

  /** What a step means for a call that does not move: its id's state is reserved or
      recorded by the moving call, or stays. */
  ghost predicate OtherEffect(s: System, e: Event, t: System, c: nat)
    requires c in s.calls
  {
    var id := s.calls[c].id;
    && c in t.calls && t.calls[c] == s.calls[c] && (id in s.held ==> id in t.held)
    && (id in s.states ==> id in t.states)
    && (id in s.states && t.states[id] != s.states[id] ==>
          Records(s, e, id) && t.states[id] in {SubmissionUncertain, Accepted})
  }

  /** The moving call records an outcome for the id. */
  predicate Records(s: System, e: Event, id: string) {
    (e.RecordReply? || e.RecordFound?) && Enabled(s, e) && s.calls[e.c].id == id
  }

  lemma OthersEffect(s: System, e: Event, c: nat)
    requires c in s.calls && Enabled(s, e) && (e.BrokerAccepts? || e.c != c)
    ensures OtherEffect(s, e, Step(s, e), c)
  {
  }

  lemma WaitingCall(s: System, e: Event, t: System, c: nat)
    requires c in s.calls && CallInv(s, c) && IdInv(s, s.calls[c].id) && OwnerInv(s)
    requires Enabled(s, e) && (e.BrokerAccepts? || (e.c != c && (e.c in s.calls ==> CallInv(s, e.c))))
    requires OtherEffect(s, e, t, c)
    requires OnWire(t, s.calls[c].id) <==> OnWire(s, s.calls[c].id) || Sends(s, e, s.calls[c].id)
    ensures CallInv(t, c)
  {
  }

  lemma StepKeepsId(s: System, e: Event, id: string)
    requires Inv(s)
    ensures IdInv(Step(s, e), id)
  {
    WireGrowsBySends(s, e, id);
    assert IdInv(s, id);
    if Enabled(s, e) && !e.BrokerAccepts? && e.c in s.calls { assert CallInv(s, e.c); }
  }

  lemma StepKeepsInv(s: System, e: Event)
    requires Inv(s)
    ensures Inv(Step(s, e))
  {
    StepKeepsWire(s, e);
    StepKeepsOwner(s, e);
    forall c | c in Step(s, e).calls ensures CallInv(Step(s, e), c) { StepKeepsCall(s, e, c); }
    forall id ensures IdInv(Step(s, e), id) { StepKeepsId(s, e, id); }
  }

  lemma {:induction false} RunKeepsInv(guarded: bool, es: seq<Event>)
    ensures Inv(After(guarded, es))
    decreases |es|
  {
    if es != [] {
      RunKeepsInv(guarded, es[..|es| - 1]);
      StepKeepsInv(After(guarded, es[..|es| - 1]), es[|es| - 1]);
    }
  }

  // ----- Safety over whole runs -----

  /** `submit_order` is called at most once per client order id, and only for a reserved id. */
  lemma SubmittedAtMostOnce(guarded: bool, es: seq<Event>)
    ensures var s := After(guarded, es);
      && (forall i, j :: 0 <= i < j < |s.wire| ==> s.wire[i].id != s.wire[j].id)
      && (forall i :: 0 <= i < |s.wire| ==> s.wire[i].id in s.states)
  {
    RunKeepsInv(guarded, es);
    var s := After(guarded, es);
    forall i | 0 <= i < |s.wire| ensures s.wire[i].id in s.states {
      assert OnWire(s, s.wire[i].id) && IdInv(s, s.wire[i].id);
    }
  }

  /** A reserved id never becomes unreserved, and a sent request is never unsent. */
  lemma {:induction false} ReservationIsPermanent(s: System, more: seq<Event>)
    ensures s.states.Keys <= Run(s, more).states.Keys
    ensures s.wire <= Run(s, more).wire
    ensures s.held <= Run(s, more).held
    decreases |more|
  {
    if more != [] {
      ReservationIsPermanent(s, more[..|more| - 1]);
    }
  }

  /** What the stored state says about the broker, and the broker about the state. */
  lemma StoredStateMatchesBroker(guarded: bool, es: seq<Event>, id: string)
    ensures var s := After(guarded, es);
      && (id in s.states && s.states[id] == Accepted ==> id in s.held)
      && (id in s.held ==>
            id in s.states && s.states[id] in {SubmissionStarted, SubmissionUncertain, Accepted})
      && (id in s.states && s.states[id] == SubmissionUncertain ==> OnWire(s, id))
  {
    RunKeepsInv(guarded, es);
    assert IdInv(After(guarded, es), id);
  }

  /** The only moves of a stored state: absent to started, started to uncertain or
      accepted, uncertain to accepted. The last is made by a reconciling call to
      which the broker reported the order. */
  lemma StateMoves(guarded: bool, es: seq<Event>, e: Event, id: string)
    ensures var s := After(guarded, es); var t := Step(s, e);
      && (id !in s.states && id in t.states ==> t.states[id] == SubmissionStarted)
      && (id in s.states ==> id in t.states)
      && (id in s.states && t.states[id] != s.states[id] ==>
            && (s.states[id] == SubmissionStarted ==> t.states[id] in {SubmissionUncertain, Accepted})
            && (s.states[id] == SubmissionUncertain ==>
                  && t.states[id] == Accepted
                  && e.RecordFound? && At(s, e.c, FoundOrder) && s.calls[e.c].id == id && id in s.held)
            && s.states[id] != Accepted)
  {
    RunKeepsInv(guarded, es);
    var s := After(guarded, es);
    assert IdInv(s, id);
    if Enabled(s, e) && (e.RecordReply? || e.RecordFound?) { assert CallInv(s, e.c); }
  }

  /** Event `j` of the run is `e`, and it took place. */
  ghost predicate Happens(guarded: bool, es: seq<Event>, j: int, e: Event) {
    0 <= j < |es| && es[j] == e && Enabled(After(guarded, es[..j]), e)
  }

  lemma HappensInLonger(guarded: bool, es: seq<Event>, n: nat, j: int, e: Event)
    requires n <= |es| && Happens(guarded, es[..n], j, e)
    ensures Happens(guarded, es, j, e)
  {
    assert es[..n][..j] == es[..j];
  }

  /** A call that found the order did so in an earlier answer of the broker to it. */
  lemma {:induction false} FoundWasReported(guarded: bool, es: seq<Event>, c: nat) returns (j: int)
    requires At(After(guarded, es), c, FoundOrder)
    ensures Happens(guarded, es, j, Query(c, true))
    decreases |es|
  {
    var n := |es| - 1;
    if es[n] == Query(c, true) && Enabled(After(guarded, es[..n]), es[n]) {
      j := n;
    } else {
      j := FoundWasReported(guarded, es[..n], c);
      HappensInLonger(guarded, es, n, j, Query(c, true));
    }
  }

  /** Every store write of a running call finds its row, so the update of
      `PostgresIntentStore.set_state` never raises for a missing key. */
  lemma RecordedIdIsReserved(guarded: bool, es: seq<Event>, c: nat)
    requires var s := After(guarded, es);
      At(s, c, GotOrder) || At(s, c, GotError) || At(s, c, FoundOrder)
    ensures var s := After(guarded, es); s.calls[c].id in s.states
  {
    RunKeepsInv(guarded, es);
    assert CallInv(After(guarded, es), c);
  }

  // ----- The gate was open at an earlier step of the same call -----

  predicate PastPreflight(s: System, c: nat) {
    c in s.calls && s.calls[c].pc in {AtReserve, AtSubmit, AwaitingReply, GotOrder, GotError}
  }

  lemma StepFacts(s: System, e: Event)
    ensures var t := Step(s, e);
      && t.guarded == s.guarded
      && (t.wire != s.wire ==> e.Submit? && PastPreflight(s, e.c))
      && (forall c :: s.guarded && PastPreflight(t, c) ==>
            PastPreflight(s, c) || (e == Preflight(c, true) && Enabled(s, e)))
  {
  }

  lemma AfterSnoc(guarded: bool, es: seq<Event>, e: Event)
    ensures After(guarded, es + [e]) == Step(After(guarded, es), e)
  {
    assert (es + [e])[..|es|] == es;
  }

  lemma {:induction false} PastPreflightWasAllowed(es: seq<Event>, c: nat) returns (j: int)
    requires PastPreflight(After(true, es), c)
    ensures Happens(true, es, j, Preflight(c, true))
    decreases |es|
  {
    var n := |es| - 1;
    GuardedForever(es[..n]);
    StepFacts(After(true, es[..n]), es[n]);
    if PastPreflight(After(true, es[..n]), c) {
      j := PastPreflightWasAllowed(es[..n], c);
      HappensInLonger(true, es, n, j, Preflight(c, true));
    } else {
      j := n;
    }
  }

  lemma {:induction false} GuardedForever(es: seq<Event>)
    ensures After(true, es).guarded
    decreases |es|
  {
    if es != [] {
      GuardedForever(es[..|es| - 1]);
      StepFacts(After(true, es[..|es| - 1]), es[|es| - 1]);
    }
  }

  /** With a preflight, the `n`-th event puts a request on the wire only if the
      same call got a positive preflight answer at an earlier event. */
  lemma SubmissionHadOpenGate(es: seq<Event>, n: nat) returns (j: int)
    requires n < |es|
    requires After(true, es[..n + 1]).wire != After(true, es[..n]).wire
    ensures es[n].Submit?
    ensures j < n && Happens(true, es, j, Preflight(es[n].c, true))
  {
    assert es[..n + 1][..n] == es[..n];
    StepFacts(After(true, es[..n]), es[n]);
    j := PastPreflightWasAllowed(es[..n], es[n].c);
    HappensInLonger(true, es, n, j, Preflight(es[n].c, true));
  }

  // ----- Stranded submissions -----

  predicate Stranded(s: System, id: string) {
    && id in s.states && s.states[id] == SubmissionStarted
    && (forall c | c in s.calls :: s.calls[c].id == id ==>
          !Owns(s.calls[c]) && s.calls[c].pc != AtQuery && s.calls[c].pc != FoundOrder)
  }

  /** When the submitting call dies between its reservation and its record, the id
      stays SUBMISSION_STARTED for ever: no retry submits it again and
      `reconcile_uncertain` refuses it. */
  lemma {:induction false} StrandedForEver(s: System, more: seq<Event>, id: string)
    requires Stranded(s, id)
    ensures Stranded(Run(s, more), id)
    decreases |more|
  {
    if more != [] {
      StrandedForEver(s, more[..|more| - 1], id);
      StrandedStep(Run(s, more[..|more| - 1]), more[|more| - 1], id);
    }
  }

  lemma StrandedStep(s: System, e: Event, id: string)
    requires Stranded(s, id)
    ensures Stranded(Step(s, e), id)
  {
  }

  /** The call that owns an id strands it by dying. */
  lemma CrashStrands(guarded: bool, es: seq<Event>, c: nat)
    requires var s := After(guarded, es); c in s.calls && Owns(s.calls[c])
    ensures var s := After(guarded, es); Stranded(Step(s, Crash(c)), s.calls[c].id)
  {
    RunKeepsInv(guarded, es);
    var s := After(guarded, es);
    assert CallInv(s, c);
    forall d | d in s.calls && s.calls[d].id == s.calls[c].id && d != c
      ensures !Owns(s.calls[d]) && s.calls[d].pc != AtQuery && s.calls[d].pc != FoundOrder
    {
      assert CallInv(s, d);
    }
  }

  /** Event `n` kills the call that owns the id. */
  predicate OwnerCrashedAt(guarded: bool, es: seq<Event>, id: string, n: int)
    requires 0 <= n < |es|
  {
    es[n].Crash? && OwnsId(After(guarded, es[..n]), es[n].c, id)
  }

  predicate OwnsId(s: System, c: nat, id: string) {
    c in s.calls && Owns(s.calls[c]) && s.calls[c].id == id
  }

  /** A step strands an id only by killing the call that owns it. */
  lemma StrandsByCrash(s: System, e: Event, id: string)
    requires Inv(s) && !Stranded(s, id) && Stranded(Step(s, e), id)
    ensures e.Crash? && OwnsId(s, e.c, id)
  {
    assert IdInv(s, id);
    if id in s.states && s.states[id] == SubmissionStarted {
      var c :| c in s.calls && s.calls[c].id == id
        && (Owns(s.calls[c]) || s.calls[c].pc == AtQuery || s.calls[c].pc == FoundOrder);
      assert CallInv(s, c);
      OwnerLeaves(s, e, c);
    } else {
      StartedByReserve(s, e, id);
      assert false;
    }
  }

  /** An owner stops owning its started id by dying or by recording an outcome. */
  lemma OwnerLeaves(s: System, e: Event, c: nat)
    requires c in s.calls && Owns(s.calls[c])
    requires c in Step(s, e).calls ==> !OwnsId(Step(s, e), c, s.calls[c].id)
    ensures e == Crash(c)
            || (e == RecordReply(c) && Enabled(s, e) && Step(s, e).states[s.calls[c].id] != SubmissionStarted)
  {
  }

  lemma StartedByReserve(s: System, e: Event, id: string)
    requires !(id in s.states && s.states[id] == SubmissionStarted)
    requires id in Step(s, e).states && Step(s, e).states[id] == SubmissionStarted
    ensures e.Reserve? && OwnsId(Step(s, e), e.c, id)
  {
  }

  /** An id is stranded after a run exactly when its owner died at some event of the run. */
  lemma {:induction false} StrandedIffOwnerCrashed(guarded: bool, es: seq<Event>, id: string)
    ensures Stranded(After(guarded, es), id) <==> exists n | 0 <= n < |es| :: OwnerCrashedAt(guarded, es, id, n)
    decreases |es|
  {
    if es != [] {
      var m := |es| - 1;
      var before := es[..m];
      StrandedIffOwnerCrashed(guarded, before, id);
      forall n | 0 <= n < m ensures OwnerCrashedAt(guarded, before, id, n) <==> OwnerCrashedAt(guarded, es, id, n) {
        assert before[..n] == es[..n];
      }
      RunKeepsInv(guarded, before);
      if Stranded(After(guarded, before), id) {
        StrandedStep(After(guarded, before), es[m], id);
      } else if Stranded(After(guarded, es), id) {
        StrandsByCrash(After(guarded, before), es[m], id);
        assert OwnerCrashedAt(guarded, es, id, m);
      }
      if OwnerCrashedAt(guarded, es, id, m) {
        CrashStrands(guarded, before, es[m].c);
      }
    }
  }

  // ----- The program, run without interruption -----

  class InMemoryIntentStore {
    var states: map<string, ExecutionState>

    constructor ()
      ensures states == map[]
    {
      states := map[];
    }

    method ReserveSubmission(id: string) returns (reserved: bool)
      modifies this
      ensures reserved <==> id !in old(states)
      ensures states == if reserved then old(states)[id := SubmissionStarted] else old(states)
    {
      if id in states {
        return false;
      }
      states := states[id := SubmissionStarted];
      return true;
    }

    method SetState(id: string, state: ExecutionState)
      modifies this
      ensures states == old(states)[id := state]
    {
      states := states[id := state];
    }

    method GetState(id: string) returns (state: Option<ExecutionState>)
      ensures state == if id in states then Some(states[id]) else None
    {
      state := if id in states then Some(states[id]) else None;
    }
  }

  /** The broker's side of one `submit_order`: whether it accepted the order and
      whether its reply arrived. */
  datatype Reply = Order | ErrorAfterAccepting | ErrorWithoutAccepting

  function ExecuteTrace(id: string, allowed: bool, reply: Reply): seq<Event> {
    [BeginExecute(0, id), Preflight(0, allowed), Reserve(0), Submit(0)]
    + (if reply.ErrorWithoutAccepting? then [] else [BrokerAccepts(id)])
    + [if reply.Order? then ReplyOrder(0) else ReplyError(0), RecordReply(0)]
  }

  function ReconcileTrace(id: string, found: bool): seq<Event> {
    [BeginReconcile(0, id), ReadState(0), Query(0, found), RecordFound(0)]
  }

  /** The state after an uninterrupted call, beginning with no other call running. */
  ghost function ExecuteAlone(guarded: bool, states: map<string, ExecutionState>, id: string,
                              allowed: bool, reply: Reply): System {
    Run(Idle(guarded, states), ExecuteTrace(id, allowed, reply))
  }

  ghost function ReconcileAlone(states: map<string, ExecutionState>, held: set<string>, id: string,
                                found: bool): System {
    Run(Idle(true, states).(held := held), ReconcileTrace(id, found))
  }

  lemma RunTwo(s: System, a: Event, b: Event)
    ensures Run(s, [a, b]) == Step(Step(s, a), b)
  {
    assert [a, b][..1] == [a] && [a][..0] == [];
    assert Run(s, [a]) == Step(Run(s, []), a);
  }

  lemma RunFour(s: System, a: Event, b: Event, c: Event, d: Event)
    ensures Run(s, [a, b, c, d]) == Step(Step(Step(Step(s, a), b), c), d)
  {
    RunAppend(s, [a, b], [c, d]);
    assert [a, b] + [c, d] == [a, b, c, d];
    RunTwo(s, a, b);
    RunTwo(Run(s, [a, b]), c, d);
  }

  lemma RunThree(s: System, a: seq<Event>, b: seq<Event>, c: seq<Event>)
    ensures Run(s, a + b + c) == Run(Run(Run(s, a), b), c)
  {
    RunAppend(s, a, b);
    RunAppend(s, a + b, c);
  }

  /** `execute` up to and including the request. */
  lemma RequestSteps(guarded: bool, states: map<string, ExecutionState>, id: string, allowed: bool)
    ensures var t := Run(Idle(guarded, states),
                         [BeginExecute(0, id), Preflight(0, allowed), Reserve(0), Submit(0)]);
      if guarded && !allowed then t == Idle(guarded, states).(calls := map[0 := Call(id, Ended(Blocked))])
      else if id in states then t == Idle(guarded, states).(calls := map[0 := Call(id, Ended(Duplicate))])
      else t == System(guarded, map[0 := Call(id, AwaitingReply)], states[id := SubmissionStarted],
                       [Request(0, id)], {})
  {
    var s := Idle(guarded, states);
    RunFour(s, BeginExecute(0, id), Preflight(0, allowed), Reserve(0), Submit(0));
    var pc := if guarded && !allowed then Ended(Blocked) else AtReserve;
    assert Step(Step(s, BeginExecute(0, id)), Preflight(0, allowed)) == s.(calls := map[0 := Call(id, pc)]);
    ReserveAndSubmit(s.(calls := map[0 := Call(id, pc)]));
  }

  lemma ReserveAndSubmit(s: System)
    requires s.calls.Keys == {0} && s.wire == [] && (At(s, 0, AtReserve) || s.calls[0].pc.Ended?)
    ensures var t := Step(Step(s, Reserve(0)), Submit(0)); var id := s.calls[0].id;
      if s.calls[0].pc.Ended? then t == s
      else if id in s.states then t == s.(calls := map[0 := Call(id, Ended(Duplicate))])
      else t == s.(calls := map[0 := Call(id, AwaitingReply)], states := s.states[id := SubmissionStarted],
                   wire := [Request(0, id)])
  {
  }

  /** `execute` from the request on; nothing happens when it ended before. */
  lemma ReplySteps(t: System, id: string, reply: Reply, middle: seq<Event>)
    requires t.calls.Keys == {0} && t.held == {}
    requires middle == if reply.ErrorWithoutAccepting? then [] else [BrokerAccepts(id)]
    requires || (At(t, 0, AwaitingReply) && t.calls[0].id == id && t.wire == [Request(0, id)])
             || (t.calls[0].pc.Ended? && t.wire == [])
    ensures var tail := [if reply.Order? then ReplyOrder(0) else ReplyError(0), RecordReply(0)];
      var r := Run(Run(t, middle), tail);
      if t.wire == [] then r == t
      else
        && r.wire == t.wire
        && r.held == (if reply.ErrorWithoutAccepting? then {} else {id})
        && r.states == t.states[id := if reply.Order? then Accepted else SubmissionUncertain]
        && At(r, 0, Ended(if reply.Order? then Returned else Raised))
  {
    assert [BrokerAccepts(id)][..0] == [];
    assert Run(t, [BrokerAccepts(id)]) == Step(Run(t, []), BrokerAccepts(id));
    if t.wire != [] { assert t.wire[0].id == id; }
    assert OnWire(t, id) <==> t.wire != [];
    RunTwo(Run(t, middle), if reply.Order? then ReplyOrder(0) else ReplyError(0), RecordReply(0));
  }

  lemma ExecuteAloneSteps(guarded: bool, states: map<string, ExecutionState>, id: string,
                          allowed: bool, reply: Reply)
    ensures var r := ExecuteAlone(guarded, states, id, allowed, reply);
      if guarded && !allowed then
        r.states == states && r.wire == [] && At(r, 0, Ended(Blocked))
      else if id in states then
        r.states == states && r.wire == [] && At(r, 0, Ended(Duplicate))
      else
        && r.wire == [Request(0, id)]
        && r.held == (if reply.ErrorWithoutAccepting? then {} else {id})
        && r.states == states[id := if reply.Order? then Accepted else SubmissionUncertain]
        && At(r, 0, Ended(if reply.Order? then Returned else Raised))
  {
    var middle := if reply.ErrorWithoutAccepting? then [] else [BrokerAccepts(id)];
    var t := ExecuteInTwo(guarded, states, id, allowed, reply, middle);
    ReplySteps(t, id, reply, middle);
  }

  /** `execute` is the request and then the reply. */
  lemma ExecuteInTwo(guarded: bool, states: map<string, ExecutionState>, id: string, allowed: bool,
                     reply: Reply, middle: seq<Event>) returns (t: System)
    requires middle == if reply.ErrorWithoutAccepting? then [] else [BrokerAccepts(id)]
    ensures ExecuteAlone(guarded, states, id, allowed, reply)
            == Run(Run(t, middle), [if reply.Order? then ReplyOrder(0) else ReplyError(0), RecordReply(0)])
    ensures if guarded && !allowed then t == Idle(guarded, states).(calls := map[0 := Call(id, Ended(Blocked))])
      else if id in states then t == Idle(guarded, states).(calls := map[0 := Call(id, Ended(Duplicate))])
      else t == System(guarded, map[0 := Call(id, AwaitingReply)], states[id := SubmissionStarted],
                       [Request(0, id)], {})
  {
    var head := [BeginExecute(0, id), Preflight(0, allowed), Reserve(0), Submit(0)];
    var tail := [if reply.Order? then ReplyOrder(0) else ReplyError(0), RecordReply(0)];
    RunThree(Idle(guarded, states), head, middle, tail);
    assert ExecuteTrace(id, allowed, reply) == head + middle + tail;
    RequestSteps(guarded, states, id, allowed);
    t := Run(Idle(guarded, states), head);
  }

  lemma ReconcileAloneSteps(states: map<string, ExecutionState>, held: set<string>, id: string, found: bool)
    requires found ==> id in held
    ensures var r := ReconcileAlone(states, held, id, found);
      if id !in states || states[id] != SubmissionUncertain then
        r.states == states && At(r, 0, Ended(NotUncertain))
      else
        && r.states == (if found then states[id := Accepted] else states)
        && At(r, 0, Ended(if found then Returned else NotFound))
  {
    var es := ReconcileTrace(id, found);
    RunFour(Idle(true, states).(held := held), es[0], es[1], es[2], es[3]);
  }

  class ExecutionEngine {
    const store: InMemoryIntentStore
    const guarded: bool

    constructor (store: InMemoryIntentStore, guarded: bool)
      ensures this.store == store && this.guarded == guarded
    {
      this.store := store;
      this.guarded := guarded;
    }

    /** `allowed` and `reply` are the answers of the preflight and of the broker. The
        call is one run of the protocol; `sent` says whether it used the wire. */
    method Execute(id: string, allowed: bool, reply: Reply) returns (outcome: Outcome, sent: bool)
      modifies store
      ensures var r := ExecuteAlone(guarded, old(store.states), id, allowed, reply);
        && store.states == r.states
        && At(r, 0, Ended(outcome))
        && (sent <==> r.wire == [Request(0, id)])
    {
      ExecuteAloneSteps(guarded, store.states, id, allowed, reply);
      if guarded && !allowed {
        return Blocked, false;
      }
      var reserved := store.ReserveSubmission(id);
      if !reserved {
        return Duplicate, false;
      }
      sent := true;
      if !reply.Order? {
        store.SetState(id, SubmissionUncertain);
        return Raised, sent;
      }
      store.SetState(id, Accepted);
      return Returned, sent;
    }

    method ReconcileUncertain(id: string, found: bool, ghost held: set<string>) returns (outcome: Outcome)
      requires found ==> id in held
      modifies store
      ensures var r := ReconcileAlone(old(store.states), held, id, found);
        store.states == r.states && At(r, 0, Ended(outcome))
    {
      ReconcileAloneSteps(store.states, held, id, found);
      var state := store.GetState(id);
      if state != Some(SubmissionUncertain) {
        return NotUncertain;
      }
      if found {
        store.SetState(id, Accepted);
        return Returned;
      }
      return NotFound;
    }
  }
}
