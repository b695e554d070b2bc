# AlphaDesk, verified in Dafny

AlphaDesk is a paper-trading options desk that promises to fail closed. This project models
the deterministic components that carry the promise and proves what they keep.

| file | what it models |
|---|---|
| `SubmitOnce.dfy` | `execute` and `reconcile_uncertain` as a transition system that moves at each await, with crashes and a broker that loses replies |
| `BrokerProjection.dfy` | the Postgres and the memory projection store, the reconciliation service and the execution gate |
| `Guardian.dfy` | the incident table and its two stores |
| `Desk.dfy` | Guardian, projection, joint preflight and submit-once protocol of one workspace, run together |
| `OptionsEngine.dfy` | `build_structure`, `expiration_payoff` and `aggregate_greeks` |
| `RiskPortfolio.dfy` | the risk engine and the loss bound of an approved portfolio |
| `Decimals.dfy`, `OrderIdentity.dfy` | the canonical order text, its decoder, client order ids and intents |
| `Ordering.dfy`, `LabEvidence.dfy` | stable sorting and filtering; visibility, analogs, drawdown and walk-forward windows |
| `Opportunity.dfy` | leg selection, ranking and the conclusion of an analysis |
| `Registration.dfy` | the invitation registration saga |
| `Supervisor.dfy` | the worker's connection supervisor |

**Runs.** A concurrent component is a state, a set of events and a total `Step`; an event that
is not enabled leaves the state alone. A theorem about "every run" quantifies over every
sequence of events, so over every interleaving of any number of calls, with crashes and
failures wherever the program awaits. A transaction is one step, except where the program reads
and writes without a lock: a halt, a recovery and the preflight take two, two and three steps.

**Programs.** Objects that the program updates are classes. Their methods are proved against the
same step functions: the `ensures` of `Execute`, `Reconcile`, `ConsumeTradeUpdates` or
`Register` says that the new state is the one the protocol reaches on that call's events.

**Numbers.** `Decimal` is an exact real. The order text needs the spelling of a price, so there a
decimal is its exact sign, coefficient and exponent, and `Decimals.Value` is the number it stands
for. Distances are compared squared. Timestamps are integers. Hashes are arbitrary functions,
assumed collision-free only on the two texts that a statement compares.

## Where the code promises less than it seems to

Each of these is a lemma with a concrete input or an exact condition.

- A halt that commits after the Guardian read does not stop that call's request
  (`Desk.HaltAfterTheCheckIsNotSeen`). `Desk.SubmissionIsSafe` says when no incident is active
  at the request: exactly when every halt committed since that read has been lifted.
- A call that dies between reserving and recording leaves its id in SUBMISSION_STARTED for
  ever, since `reconcile_uncertain` accepts only the uncertain state, and ids are stranded in no
  other way (`SubmitOnce.StrandedForEver`, `SubmitOnce.StrandedIffOwnerCrashed`).
- The two projection stores give one verdict on every run of transactions that Postgres commits
  (`BrokerProjection.StoresAgree`). When Postgres rolls back a transaction for a duplicate key the
  memory store keeps it. Over whole runs the verdicts stay the same exactly when every such
  transaction satisfies `BrokerProjection.IsHarmless`, which reads the Postgres rows before it
  (`BrokerProjection.RunsAgreeIff`); agreement right after the rollback is not enough
  (`BrokerProjection.RollbackCanShowLater`).
- The compensation of a registration deletes the identity of a committed user exactly when the
  provider carries it out and either the commit had succeeded and lost its reply, or a login had
  committed a user for the new subject before the flush (`Registration.IdentityIsLostIff`).
- The drawdown of `compute_metrics` ignores the curve's first point
  (`LabEvidence.FirstPointCanBeMissed`); `LabEvidence.DrawdownsAgreeIff` says when that changes it.
- The canonical order text does not determine the order: every order of two legs or more has the
  text of another, in which they are merged into one leg whose symbol holds a comma
  (`OrderIdentity.MergedHasSameText`), and that one passes `validate_identifier` under the same id
  (`OrderIdentity.SpreadHasValidDouble`). `OrderIdentity.DoubleExistsIff` and
  `OrderIdentity.ValidDoubleIff` give the exact condition, `OrderIdentity.EqualIdsMeanEqualOrders`
  what holds for symbols without commas. The two zeros have different texts (`Decimals.ZerosDiffer`).
- The declared figures of a structure are exact except where they are clipped at zero:
  a protective structure that cannot lose, and a long put dearer than its strike
  (`OptionsEngine.MaxLossIsExact`, `OptionsEngine.MaxProfitIsExact`, `OptionsEngine.BreakEvenDivides`,
  `OptionsEngine.ProtectiveBreakEven`).
- The callers report a planned loss of zero, so the total-loss check bounds nothing
  (`RiskPortfolio.ZeroPlannedLossBoundsNothing`, `RiskPortfolio.DefaultShareCanBeExceeded`); the
  4 percent then hold for up to 8 structures and no more (`RiskPortfolio.DefaultShareHoldsIff`), so
  as long as the structure count is right (`RiskPortfolio.DefaultPortfolioLossIsBounded`).

## Model

| member | source | states |
|---|---|---|
| `SubmitOnce.SubmittedAtMostOnce` | packages/execution/engine.py:77-101 | In every interleaving of any number of calls, with crashes and lost replies, no client order id is submitted twice, and every submitted id is reserved |
| `SubmitOnce.ReservationIsPermanent` | packages/execution/store.py:22-40 | In every continuation a reserved id stays reserved, a sent request stays sent and a held order stays held |
| `SubmitOnce.StoredStateMatchesBroker` | packages/execution/engine.py:95-110 | ACCEPTED implies that the broker holds the order; a held order implies that the id is started, uncertain or accepted; an uncertain id was submitted |
| `SubmitOnce.StateMoves` | packages/execution/engine.py:95-110 | The only moves of a stored state; the uncertain state leaves only to ACCEPTED, by a reconciling call, while the broker holds the order |
| `SubmitOnce.FoundWasReported` | packages/execution/engine.py:107-109 | A reconciling call has found an order only in an answer that the broker gave to its own query |
| `SubmitOnce.RecordedIdIsReserved` | packages/execution/store.py:42-54 | Every state update of a running call finds its row, so the missing-key error of the Postgres store cannot occur |
| `SubmitOnce.SubmissionHadOpenGate` | packages/execution/engine.py:78-84 | A request on the wire means a positive preflight answer that the same call received at an earlier event |
| `SubmitOnce.CrashStrands` | packages/execution/engine.py:82-100 | A call that dies between reservation and record leaves its id stranded in SUBMISSION_STARTED |
| `SubmitOnce.StrandedForEver` | packages/execution/engine.py:103-106 | A stranded id stays so in every continuation: no retry submits it and reconciliation refuses it |
| `SubmitOnce.StrandedIffOwnerCrashed` | packages/execution/engine.py:82-106 | After any run an id is stranded exactly when the call that owned it died at some event of the run |
| `SubmitOnce.ExecuteAloneSteps` | packages/execution/engine.py:77-101 | What an uninterrupted `execute` does to wire, broker and store, for every preflight and broker answer |
| `SubmitOnce.ReconcileAloneSteps` | packages/execution/engine.py:103-110 | What an uninterrupted `reconcile_uncertain` does, for every stored state and broker answer |
| `SubmitOnce.InMemoryIntentStore.ReserveSubmission` | packages/execution/engine.py:49-54 | Reserves exactly when the id is absent, and changes nothing else |
| `SubmitOnce.InMemoryIntentStore.SetState` | packages/execution/engine.py:56-57 | Sets one state and no other |
| `SubmitOnce.InMemoryIntentStore.GetState` | packages/execution/engine.py:59-60 | The stored state, or none |
| `SubmitOnce.ExecutionEngine.Execute` | packages/execution/engine.py:77-101 | The new store and the outcome are those of the protocol run with the same answers, and the wire is used exactly when that run uses it |
| `SubmitOnce.ExecutionEngine.ReconcileUncertain` | packages/execution/engine.py:103-110 | The new store and the outcome are those of the protocol run |
| `BrokerProjection.ReconciledIffLastChangeIsApply` | packages/broker/projections.py:86-190 | In every interleaving the state is RECONCILED exactly when the latest state-changing transaction was a successful apply, and the account and time are then those of that apply |
| `BrokerProjection.ConnectedWasReconnected` | packages/broker/projections.py:92-98 | A connected stream was connected, or delivered an update, after every earlier disconnect or deletion |
| `BrokerProjection.OpenMeans` | packages/broker/reconciliation.py:32-60 | The gate is open exactly when the state is reconciled, connected and fresh and the account is present and unblocked |
| `BrokerProjection.OpenMeansUnflagged` | packages/broker/reconciliation.py:34-60 | The same with the status row and the three account flags written out |
| `BrokerProjection.OpenGateRestsOnApply` | packages/broker/reconciliation.py:32-60 | An open gate rests on an apply that is still the latest state change, is no older than the maximum age and saw an unblocked account |
| `BrokerProjection.OpenGateFollowsApplyAndReconnect` | packages/broker/reconciliation.py:32-109 | Between a recorded disconnect, mark or deletion and a later open gate there is an apply, and after a disconnect or deletion also a reconnect or an update |
| `BrokerProjection.ReconciledRowsAreComplete` | packages/broker/reconciliation.py:40-55 | A reconciled status always has its time and its account, so two of the gate's refusals are unreachable on one snapshot of the rows |
| `BrokerProjection.RowsAreSnapshotAndUpdates` | packages/broker/projections.py:100-190 | Account and positions are exactly those listed in the last applied snapshot; the orders are exactly its orders, each under its id, overridden, in order, by the committed updates since |
| `BrokerProjection.OrdersByIdHolds` | packages/broker/projections.py:161-164 | The order rows of a snapshot are exactly its orders, each under its broker id |
| `BrokerProjection.PositionsByIdHolds` | packages/broker/projections.py:157-160 | The position rows of a snapshot are exactly its positions, each under its asset id |
| `BrokerProjection.RowsStayKeyed` | packages/broker/projections.py:100-190 | In every run each row lies under its id and no two orders share a client id |
| `BrokerProjection.CountersAreTotals` | packages/broker/projections.py:165-170 | The generation is the number of applies and the divergence count the sum of the symmetric differences, since the last deletion |
| `BrokerProjection.DifferenceIsZeroIffEqual` | packages/broker/projections.py:119-121 | A difference of zero means equal id sets |
| `BrokerProjection.DivergenceCounts` | packages/broker/projections.py:117-121 | The divergence of a snapshot is the number of positions and orders that are stored or reported, but not both |
| `BrokerProjection.ReapplyFindsOnlyNewOrders` | packages/broker/projections.py:110-121 | Re-applying the last snapshot finds a difference exactly when an update since brought in an order it did not list |
| `BrokerProjection.ReapplyAddsZero` | packages/broker/projections.py:165-170 | Re-applying with nothing in between adds one generation, no divergence, and moves no row |
| `BrokerProjection.StoresStayRelated` | packages/broker/projections.py:289-330 | The simulation relation between the two stores holds after every run of committed transactions |
| `BrokerProjection.StoresAgree` | packages/broker/projections.py:298-330 | Given the transactions that Postgres commits, in every reachable pair of states the gate's verdict is the same at every time, and so are rows and counters |
| `BrokerProjection.RunsAgreeIff` | packages/broker/projections.py:86-330 | Given the same transactions, rollbacks included, the two stores agree at every point of a run and after anything that commits from there exactly when each transaction commits or is harmless to roll back |
| `BrokerProjection.InterchangeableIff` | packages/broker/reconciliation.py:32-60 | Two states agree from here on exactly when they agree on the connection, on being ready once connected, and then on the time |
| `BrokerProjection.RollbackKeepsIff` | packages/broker/projections.py:309-330 | A rolled-back update keeps them so exactly on a connected stream; a rolled-back apply exactly when it repeats what the stored state says of account and time |
| `BrokerProjection.RefusalsMayDiffer` | packages/broker/projections.py:303-307 | The text of a refusal can differ: a disconnect before any reconcile |
| `BrokerProjection.RollbackAgreement` | packages/broker/projections.py:326-330 | For one rolled-back transaction, the exact condition under which the verdicts agree in the state right after it |
| `BrokerProjection.RollbackCanBeVisible` | packages/broker/projections.py:309-324 | A snapshot that lists one position twice opens the memory store's gate and not the other |
| `BrokerProjection.RollbackCanShowLater` | packages/broker/projections.py:326-330 | A rolled-back update on a closed stream that no verdict shows at once opens only the memory store's gate at the next apply |
| `BrokerProjection.ClosedAfterDisconnect` | packages/broker/projections.py:92-98 | A recorded disconnect closes the gate at every time |
| `BrokerProjection.PostgresBrokerProjectionStore.StateForUpdate` | packages/broker/projections.py:72-84 | Inserts the default row when there is none and changes nothing else |
| `BrokerProjection.PostgresBrokerProjectionStore.MarkState` | packages/broker/projections.py:86-90 | One transition of the projection |
| `BrokerProjection.PostgresBrokerProjectionStore.SetStreamConnected` | packages/broker/projections.py:92-98 | One transition of the projection |
| `BrokerProjection.PostgresBrokerProjectionStore.ApplyReconciliation` | packages/broker/projections.py:100-170 | One transition of the projection: the rows become exactly those listed and the count of ids on one side only is returned, or nothing when two rows share a key |
| `BrokerProjection.PostgresBrokerProjectionStore.ApplyTradeUpdate` | packages/broker/projections.py:172-190 | One transition of the projection; commits exactly when the client id is free |
| `BrokerProjection.MemoryBrokerProjectionStore.MarkState` | packages/broker/projections.py:298-301 | One transition of the memory projection |
| `BrokerProjection.MemoryBrokerProjectionStore.SetStreamConnected` | packages/broker/projections.py:303-307 | One transition of the memory projection |
| `BrokerProjection.MemoryBrokerProjectionStore.ApplyReconciliation` | packages/broker/projections.py:309-324 | One transition of the memory projection: under each listed id the last row of that id, and the count of ids on one side only |
| `BrokerProjection.MemoryBrokerProjectionStore.ApplyTradeUpdate` | packages/broker/projections.py:326-330 | One transition of the memory projection |
| `BrokerProjection.ReconciliationService.Reconcile` | packages/broker/reconciliation.py:68-91 | The run of its transactions for every broker answer; afterwards the state is RECONCILED, UNKNOWN, or RECONCILING after a cancellation |
| `BrokerProjection.ReconciliationService.EndStream` | packages/broker/reconciliation.py:98-109 | However the stream ends, the state is not RECONCILED and the gate is closed at every time |
| `BrokerProjection.ReconciliationService.ConsumeTradeUpdates` | packages/broker/reconciliation.py:93-109 | The run of its transactions: updates up to the first that is rolled back, then the handlers; the gate ends closed |
| `Guardian.RecoveryClearsExactlyTheActive` | packages/guardian/store.py:116-128 | A recovery clears every incident active at that moment, touches no other, and execution is then allowed |
| `Guardian.LatestExists` | packages/guardian/store.py:60-72 | The active-incident query returns a row exactly when execution is refused |
| `Guardian.PostgresGuardianStore.Active` | packages/guardian/store.py:60-72 | None when execution is allowed, otherwise a latest active incident |
| `Guardian.PostgresGuardianStore.Halt` | packages/guardian/store.py:95-114 | Inserts one HALTED incident with its reason and time exactly when there is no active one, otherwise reports a latest active one; execution is then refused |
| `Guardian.PostgresGuardianStore.Recover` | packages/guardian/store.py:116-128 | Recovers exactly with known broker state, otherwise raises and changes nothing |
| `Guardian.MemoryGuardianStore.Halt` | packages/guardian/store.py:41-46 | Keeps the incident there is, or makes one, and reports it |
| `Guardian.MemoryGuardianStore.Recover` | packages/guardian/store.py:48-52 | Forgets the incident exactly with known broker state |
| `Desk.ReadsAreTheGate` | packages/broker/reconciliation.py:32-60 | The gate's two reads on one state are the gate of the projection |
| `Desk.HaltStaysUntilLifted` | packages/guardian/store.py:95-114 | A committed incident stays active until a clearing recovery or a deletion of the credential, with check and insert as separate steps |
| `Desk.HaltInsertsIff` | packages/guardian/store.py:95-114 | A halt goes on to insert one HALTED incident exactly when its read saw none active, however many others have been inserted since |
| `Desk.HaltHolds` | packages/guardian/gate.py:10-18 | If execution is allowed after a committed halt, something lifted it in between |
| `Desk.ClearingReadKnownState` | apps/api/routes/desk.py:861-869 | A recovery that clears had itself read a reconciled, connected and fresh status |
| `Desk.RecoveryClearsIff` | apps/api/routes/desk.py:861-871 | A recovery goes on to clear every active incident exactly when the status it read was reconciled, connected and at most 90 seconds old, whatever happened since; otherwise it changes nothing |
| `Desk.ClearedForEver` | packages/guardian/store.py:119-127 | A cleared incident never becomes active again |
| `Desk.PassingCheckReadOpenGates` | apps/api/routes/desk.py:168-173 | A passing preflight itself made its three reads in order, each in a state that passes it |
| `Desk.StatusPassesMeans` | packages/broker/reconciliation.py:34-50 | What the status read of a preflight needs to find, with the 90 seconds written out |
| `Desk.ReconciledGoesBackToApply` | packages/broker/projections.py:86-170 | A reconciled state goes back to one apply, later than every mark, disconnect and deletion |
| `Desk.ClosedUntilApply` | apps/api/routes/desk.py:372-388 | After a deletion of the credential, a preflight begun later passes only on a new apply, read within the maximum age |
| `Desk.DeletionForgets` | apps/api/routes/desk.py:372-383 | The deletion of the credential forgets the broker rows and all incidents |
| `Desk.SubmitterPassed` | packages/execution/engine.py:78-84 | A call past its preflight has a positive answer of the joint preflight, whose reads are steps of that call |
| `Desk.AllowedIffLifted` | packages/guardian/store.py:60-128 | After an allowed read of the Guardian, execution is allowed exactly when every halt committed since has been lifted |
| `Desk.SubmissionIsSafe` | apps/api/routes/desk.py:759-768 | When a request goes out, its call had begun and then read a Guardian without incident, a fresh reconciled connected status and an unblocked account, in that order; every halt committed before the first read had been lifted by then, and no incident is active at the request exactly when those committed since have been lifted too |
| `Desk.ExecutionIsAProtocolRun` | apps/api/routes/desk.py:760-768 | The execution part of every desk run is a run of the submit-once protocol |
| `Desk.DeskSubmitsAtMostOnce` | packages/execution/engine.py:77-101 | On the desk an order is submitted at most once |
| `Desk.HaltAfterTheCheckIsNotSeen` | packages/execution/engine.py:78-84 | A run in which a call begins, its preflight passes, a halt commits, and the request still goes out |
| `OptionsEngine.ExpirationPayoff` | packages/options/engine.py:189-213 | Raises below zero, otherwise returns the payoff that the theorems below are about |
| `OptionsEngine.AmountMeans` | packages/options/engine.py:199-208 | A leg contributes its price times ratio, multiplier and quantity, negative when short |
| `OptionsEngine.AggregateGreeks` | packages/options/engine.py:41-53 | Succeeds exactly when every leg has Greeks; what it returns for a built structure the next two rows say |
| `OptionsEngine.GreeksOfBuiltSingle` | packages/options/engine.py:44-53 | The Greeks of a structure of one leg are those of the leg times the shares behind it, with the held shares added to the delta of a protective put |
| `OptionsEngine.GreeksOfBuiltPair` | packages/options/engine.py:44-53 | The Greeks of a structure of two legs are those of the long leg less those of the short one, times the shares behind it, with the held shares added to the delta of a protective spread |
| `OptionsEngine.ScaleMeans` | packages/options/engine.py:48 | The weight of any leg is ratio times quantity times multiplier, negative when short |
| `OptionsEngine.Built` | packages/options/engine.py:56-186 | Every built structure has the leg pattern, the scale and the declared figures of its type |
| `OptionsEngine.OutrightIsBuiltIff` | packages/options/engine.py:63-82 | Exactly when a long call or a long put is built |
| `OptionsEngine.VerticalIsBuiltIff` | packages/options/engine.py:83-140 | Exactly when each of the four verticals is built: the pair, the order of its strikes and the net price strictly within their width |
| `OptionsEngine.ProtectiveIsBuiltIff` | packages/options/engine.py:141-171 | Exactly when a protective put or put spread is built |
| `OptionsEngine.PayoffFactors` | packages/options/engine.py:189-213 | The payoff of a built structure is its scale times the payoff of one unit |
| `OptionsEngine.PayoffIsBounded` | packages/options/engine.py:83-186 | For all eight types, every quantity, multiplier, leg order and nonnegative price, the payoff is at least minus `max_loss`, and at most `max_profit` when that is set |
| `OptionsEngine.MaxLossIsExact` | packages/options/engine.py:76-169 | Some price attains the declared maximum loss exactly when it was not clipped at zero, which can happen to protective structures only |
| `OptionsEngine.MaxProfitIsExact` | packages/options/engine.py:77-140 | Some price attains the declared maximum profit, except for a long put dearer than its strike |
| `OptionsEngine.ProfitIsUnbounded` | packages/options/engine.py:77-79 | Without a declared maximum profit the payoff exceeds every bound |
| `OptionsEngine.BreakEvenDivides` | packages/options/engine.py:79-138 | For long options and verticals the payoff is zero exactly at the declared break-even, with strictly opposite signs on its sides |
| `OptionsEngine.ProtectiveBreakEven` | packages/options/engine.py:169-171 | A protective structure is at zero on its break-even exactly when that is not below the long strike, and gains there otherwise |
| `OptionsEngine.ProtectiveGainsAboveBreakEven` | packages/options/engine.py:169-171 | With the break-even not below the long strike it gains at precisely the prices above |
| `RiskPortfolio.ApprovedMeans` | packages/risk/engine.py:52-122 | An approval is exactly the conjunction of the nine checks |
| `RiskPortfolio.DefaultApprovalMeans` | packages/risk/engine.py:15-28 | An approval under the default policy, with every limit written out |
| `RiskPortfolio.DecisionReports` | packages/risk/engine.py:114-122 | The decision reports loss, share of the equity and the nine checks in order, and approves exactly when all pass |
| `RiskPortfolio.PayoffsCoverMaxLosses` | packages/options/engine.py:189-213 | For every assignment of expiry prices a portfolio loses at most its summed maximum losses |
| `RiskPortfolio.TotalLossIsWithinPolicy` | packages/risk/engine.py:72-77 | With accurate planned losses the summed maximum loss stays within the policy's share of the equity |
| `RiskPortfolio.PerTradeBoundsTotal` | packages/risk/engine.py:67-71 | Whatever planned loss is reported, the total is at most the count times the per-trade share |
| `RiskPortfolio.CountIsWithinPolicy` | packages/risk/engine.py:94-99 | With an accurate count no more structures are approved than the cap |
| `RiskPortfolio.PortfolioLossIsBounded` | packages/risk/engine.py:67-99 | With accurate planned losses an approved portfolio loses at most the policy's share, whatever the expiry prices |
| `RiskPortfolio.DefaultPortfolioLossIsBounded` | apps/api/routes/desk.py:737-750 | With the zero that the callers pass, the default per-trade and count checks give the same 4 percent when the count is accurate |
| `RiskPortfolio.ZeroPlannedLossBoundsNothing` | apps/api/routes/desk.py:741-748 | With a zero planned loss and a constant count one structure can be approved any number of times |
| `RiskPortfolio.RepetitionExceedsShare` | apps/api/routes/desk.py:741-748 | For a structure that can lose anything some number of approvals exceeds the share |
| `RiskPortfolio.DefaultShareHoldsIff` | apps/api/routes/desk.py:737-750 | With the zero that the callers pass, under the default policy and at every equity, all portfolios of n built structures approved in turn stay within the 4 percent exactly when n is at most 8 |
| `RiskPortfolio.DefaultShareCanBeExceeded` | apps/api/routes/desk.py:737-750 | 41 approvals of one built long call under the default policy exceed the 4 percent, and lose more than that at a price of zero |
| `Decimals.ReadText` | packages/domain/workflow.py:152 | The text of a decimal reads back as its sign, coefficient and exponent |
| `Decimals.TextExamples` | packages/domain/workflow.py:152 | The notation on either side of its plain and scientific forms, by example |
| `Decimals.NormalizeKeepsValue` | packages/domain/workflow.py:152 | Normalization keeps the value and gives a normal form |
| `Decimals.NormalFormIsUnique` | packages/domain/workflow.py:152 | A nonzero value has one normal form |
| `Decimals.NormalTextIffSameValue` | packages/domain/workflow.py:152 | Two prices have the same normalized text exactly when they are equal and of the same sign, zeros included |
| `Decimals.SameValueMeans` | packages/domain/workflow.py:152 | Equal value is equality as numbers |
| `Decimals.ZerosDiffer` | packages/domain/workflow.py:152 | The two zeros are equal and have different texts |
| `OrderIdentity.DecodeCanonical` | packages/domain/workflow.py:146-156 | The canonical text of an identity decodes to it, its price in normal form; symbols may hold colons, but no comma and no bar |
| `OrderIdentity.CanonicalIsInjective` | packages/domain/workflow.py:146-156 | Two identities whose symbols hold no comma, and whose fields hold no bar, have equal texts exactly when they are the same up to the spelling of the price |
| `OrderIdentity.SameIdentityMeans` | packages/domain/workflow.py:138-157 | Being the same identity is equality of all fields, of the price as a number and of its sign |
| `OrderIdentity.CanonicalEqualIff` | packages/domain/workflow.py:146-156 | Which identities share the text of one whose fields hold no bar: exactly those that differ at most in how the text of the legs is cut into legs |
| `OrderIdentity.DoubleExistsIff` | packages/domain/workflow.py:146-156 | An order whose fields hold no bar shares its text with another order exactly when it has two legs or more, or one leg whose symbol begins with the text of a leg and a comma |
| `OrderIdentity.MergedHasSameText` | packages/domain/workflow.py:146 | An order of two legs or more has the text of the order of one leg that merges them |
| `OrderIdentity.SeparatorsCollide` | packages/domain/workflow.py:146 | Two different orders with a common text, written out |
| `OrderIdentity.EqualIdsMeanEqualOrders` | packages/domain/workflow.py:138-157 | Without a hash collision on the two texts, and with no comma in a symbol and no bar in a field, client order ids are equal exactly when the identities are the same |
| `OrderIdentity.EqualIdsIff` | packages/domain/workflow.py:138-157 | With commas, ids are equal exactly when the identities differ at most in how their legs are cut |
| `OrderIdentity.ValidDoubleIff` | packages/domain/workflow.py:123-135 | Another identity passes validation under the id of a valid intent without bars exactly when the text of its legs can be cut in another way |
| `OrderIdentity.SpreadHasValidDouble` | packages/domain/workflow.py:123-135 | Whatever the hash and the fields, one does for every intent of two legs or more |
| `OrderIdentity.CreatedIntentIsBound` | packages/execution/intents.py:27-54 | An intent is created exactly for an approved decision on this structure and quantity, passes validation, carries the legs that were evaluated, is priced at the net premium unless a price was given, and admits under its id, of identities without commas and bars, only itself, and of others those that cut its legs differently |
| `LabEvidence.VisibleIsSortedAvailable` | packages/lab/evidence.py:25-35 | The visible observations are exactly the available ones, as often as they occur, in order |
| `LabEvidence.VisibleIsInOrder` | packages/lab/evidence.py:33 | The order is by time observed, then time available, then id |
| `LabEvidence.FutureIsInvisible` | packages/lab/evidence.py:30-34 | Future observations, wherever they stand, leave the result unchanged |
| `LabEvidence.VisibleDependsOnAvailableOnly` | packages/lab/evidence.py:30-34 | With distinct ids the result depends on nothing but which observations are available |
| `LabEvidence.EarlierViewIsPartOfLater` | packages/lab/evidence.py:30-34 | An earlier view is the later view, filtered by the earlier clock |
| `LabEvidence.VisibleGrows` | packages/lab/evidence.py:30-34 | An earlier view is a subsequence of every later one |
| `LabEvidence.SelectHistoricalAnalogs` | packages/lab/evidence.py:126-150 | Raises for a limit below one, otherwise returns the nearest analogs |
| `LabEvidence.IneligibleAnalogsAreInvisible` | packages/lab/evidence.py:136-140 | Future candidates and those with other features never change the selection |
| `LabEvidence.KeptAreNearest` | packages/lab/evidence.py:141-150 | Kept and left-out candidates make up the eligible ones; nothing left out is nearer than anything kept |
| `LabEvidence.KeptAreInOrder` | packages/lab/evidence.py:150 | The kept ones come nearest first, and by event id at equal distance |
| `Ordering.StringLeqMeans` | packages/lab/evidence.py:150 | Strings are ordered by prefix, or by the character where they first differ |
| `LabEvidence.RankedAreEligible` | packages/lab/evidence.py:136-149 | Exactly the available candidates with the target's feature names are ranked, each with its squared distance |
| `LabEvidence.DistanceIsZeroIffEqual` | packages/lab/evidence.py:141-148 | The squared distance is never negative, and zero exactly when every feature is that of the target |
| `LabEvidence.DistanceByFeature` | packages/lab/evidence.py:141-148 | Each target feature adds the square of the difference |
| `LabEvidence.ComputeMetrics` | packages/lab/evidence.py:94-103 | With positive equities the one-pass drawdown is the maximum over all earlier-later pairs of the relative drop on the initial equity followed by the curve without its first point |
| `LabEvidence.MaxDrawdownIsUnique` | packages/lab/evidence.py:100-102 | That maximum is one number |
| `LabEvidence.DrawdownRange` | packages/lab/evidence.py:98-102 | It lies in [0, 1) and is zero exactly when the sequence never falls |
| `LabEvidence.MeasuredIsCurve` | packages/lab/evidence.py:97-102 | The measured sequence is the whole curve exactly when the curve starts at the initial equity |
| `LabEvidence.DrawdownsAgreeIff` | packages/lab/evidence.py:97-102 | The reported drawdown is the curve's own exactly when the curve starts at the initial equity, or when from neither start the fall to the lowest later point is deeper than the deepest fall among the later points |
| `LabEvidence.OnePointAgrees` | packages/lab/evidence.py:97-102 | On a curve of one point both are zero |
| `LabEvidence.FirstPointCanBeMissed` | packages/lab/evidence.py:97-102 | A curve on which a fall by half is reported as no drawdown |
| `LabEvidence.WalkForwardWindows` | packages/lab/evidence.py:153-164 | Raises for sizes that are not positive, otherwise returns the windows of all starts |
| `LabEvidence.AllTrainBeforeTest` | packages/lab/evidence.py:162-163 | For arbitrary timestamps every returned window has all training before all test times |
| `LabEvidence.WindowIsReturnedIff` | packages/lab/evidence.py:159-163 | For arbitrary timestamps exactly those windows are returned that fit at a multiple of the test size and train before they test |
| `LabEvidence.WindowsAreSlices` | packages/lab/evidence.py:159-163 | For strictly increasing timestamps no window is dropped, and each is the slice at its start |
| `LabEvidence.TestsTile` | packages/lab/evidence.py:159-163 | Their test slices are consecutive and tile the timestamps from the end of the first training slice |
| `LabEvidence.NothingIsLeft` | packages/lab/evidence.py:159 | The number of windows is the greatest that fits, and none when one does not fit |
| `Opportunity.EligibleMeans` | packages/connected/opportunities.py:228-235 | Exactly the contracts of the wanted type that pass the filter are eligible, as often as they are listed |
| `Opportunity.EarliestIsFirst` | packages/connected/opportunities.py:236-247 | The chosen expiration is the earliest of the eligible contracts |
| `Opportunity.SelectedIsSorted` | packages/connected/opportunities.py:246-249 | The selected contracts are exactly those of that expiration, by strike |
| `Opportunity.NearestIndex` | packages/connected/opportunities.py:260-262 | The first index of least distance to the underlying price |
| `Opportunity.DistanceMeans` | packages/connected/opportunities.py:261 | The distance is that between strike and price, on either side |
| `Opportunity.FirstNearestIsUnique` | packages/connected/opportunities.py:260-262 | There is only one such index |
| `Opportunity.SelectLegs` | packages/connected/opportunities.py:259-274 | Both indices are in range, adjacent and in the order of the spread; the long leg is the nearest or one inward at the edge |
| `Opportunity.SpreadIsBuiltIff` | packages/connected/opportunities.py:275-287 | The spread is built exactly when multipliers are equal, strikes differ and the debit is strictly between zero and the width |
| `Opportunity.BuiltDebitHasRisk` | packages/strategy/catalyst.py:88-98 | A built debit spread has a positive maximum loss, so ranking it never divides by zero |
| `Opportunity.RankCandidates` | packages/strategy/catalyst.py:79-110 | Every wanted structure is ranked once and no other, by rounded score from high to low and then by id |
| `Opportunity.WantedMeans` | packages/strategy/catalyst.py:82-90 | Exactly the structures of the wanted type with a maximum profit are ranked |
| `Opportunity.ScoreOfPair` | packages/strategy/catalyst.py:91-97 | The score of a spread: 50 per unit of reward per risk, less 50 per unit of either leg's spread cost, rounded |
| `Opportunity.ScoreIsMonotone` | packages/strategy/catalyst.py:91-97 | More reward for the risk or less spread cost never lowers the score |
| `Opportunity.SpreadCostMeans` | packages/strategy/catalyst.py:92-94 | The cost of a quote is its spread over its midpoint, and one when there is no spread |
| `Opportunity.QuantizeIsNearest` | packages/strategy/catalyst.py:95-97 | Rounding to four decimals, half to even, moves a score by at most half a unit and keeps the order up to ties |
| `Opportunity.OnlyOneIsRanked` | packages/connected/opportunities.py:288 | Ranking the one built spread gives exactly it |
| `Opportunity.ScanApprovalMeans` | packages/connected/opportunities.py:302-317 | When risk approves in a scan, in terms of the account: gate, positions, loss, day's loss, drawdown and Greeks, each with its limit |
| `Opportunity.ProposeSpread` | packages/connected/opportunities.py:259-287 | The spread of the selected legs, or a rejection for precisely the three reasons above |
| `Opportunity.SpreadIsPriced` | packages/connected/opportunities.py:275-287 | The net premium of the selected spread is a decimal number, as its quotes are |
| `Opportunity.Conclude` | packages/connected/opportunities.py:288-331 | The disposition is a trade exactly when the account is known, the gate is open, fewer than 8 positions are held, and loss, day's loss, drawdown and Greeks are within the written limits; its intent is valid and its limit price is worth the net premium |
| `Opportunity.Analyze` | packages/connected/opportunities.py:227-331 | From the option chain on: which of the five endings is taken, for every chain and account; a trade is priced at the net premium |
| `Registration.UsesAreCounted` | packages/auth/registration.py:50-98 | The use count of an invitation equals the number of its redemptions and never exceeds the maximum, in every interleaving |
| `Registration.UsersAreComplete` | packages/auth/workspaces.py:34-65 | A registered user owns exactly one workspace with the whole default watchlist, redeemed the invitation it gave, shares its address with nobody and is no administrator |
| `Registration.RegisteredOnAvailable` | packages/auth/invitations.py:80-86 | In every run a registered user had passed the lock of the invitation it redeemed at a time when that was not disabled, not expired and not used up |
| `Registration.LockPassesIff` | packages/auth/registration.py:50-58 | A call at its lock passes exactly when its code matches an invitation that is not disabled, not expired and not used up |
| `Registration.WrittenIffCommitted` | packages/auth/registration.py:49-98 | User, workspace and redemption exist exactly when the registration committed, a user by login exactly when a login did; without a commit an identity has none of the three |
| `Registration.IdentityIsLostIff` | packages/auth/registration.py:101-113 | A committed local user loses its identity exactly when the provider carried out the compensating deletion and either the commit lost its reply or a login had committed a user for the new subject |
| `Registration.RegisteredKeepsIdentity` | packages/auth/registration.py:98 | A registration that was told of its commit keeps its identity and its rows whatever happens later |
| `Registration.CompensatesCommittedIff` | packages/auth/registration.py:101-104 | A call at its compensation has committed exactly when its commit lost the reply |
| `Registration.CompensationCanHitCommitted` | packages/auth/registration.py:101-104 | A concrete run in which the compensation deletes a committed user's identity |
| `Registration.CompensationCanHitLogin` | packages/auth/dependencies.py:35-61 | A run in which it deletes the identity of a user whom a login committed before the flush |
| `Registration.DisablingDisables` | apps/api/routes/admin.py:127-133 | An invitation that was disabled in a run is disabled at its end |
| `Registration.DisabledStaysClosed` | apps/api/routes/admin.py:127-133 | A disabled invitation gains no redemption in any continuation, not even by a registration already under way |
| `Registration.ScriptEnds` | packages/auth/registration.py:42-113 | How an uninterrupted registration ends, by its checks and the answers it gets |
| `Registration.RegistrationService.Register` | packages/auth/registration.py:42-113 | New rows, identities and outcome are those of the saga's run with the same answers; it registers exactly when the address is free and no administrator's, the invitation not disabled, expired or used up, and every answer good; nothing is written without a commit |
| `Supervisor.WantedAreTheDiscovered` | apps/worker/__main__.py:160-161 | With one credential per workspace the wanted runtimes are exactly the discovered ones |
| `Supervisor.FirstIsPrefix` | apps/worker/__main__.py:160 | The considered credentials are the first of the discovered ones, up to the limit |
| `Supervisor.WantedAtIsWithinLimit` | apps/worker/__main__.py:160-161 | Every discovery asks for no more runtimes than the limit |
| `Supervisor.PassIsSafe` | apps/worker/__main__.py:162-183 | After a pass exactly the wanted runtimes run with their fingerprints; on the way nothing runs twice and the limit holds |
| `Supervisor.HistoryIsSafe` | apps/worker/__main__.py:159-184 | The same over any sequence of discoveries |
| `Supervisor.LimitHoldsAlways` | apps/worker/__main__.py:159-184 | At no moment of any history, in the middle of a pass too, do more runtimes run than the limit |
| `Supervisor.InterruptionStopsAll` | apps/worker/__main__.py:185-189 | Cut anywhere, in the middle of a pass too, and followed by the final stop, a history stays safe and leaves nothing running |
| `Supervisor.StoppedBetweenStarts` | apps/worker/__main__.py:162-183 | Between two starts for one workspace its old runtime was stopped |
| `Supervisor.SteadyPassIsQuiet` | apps/worker/__main__.py:162-171 | A pass that finds what already runs stops and starts nothing |
| `Supervisor.ConnectionSupervisor.StopObsolete` | apps/worker/__main__.py:162-168 | Stops each runtime that is not wanted as it runs, once, and no other |
| `Supervisor.ConnectionSupervisor.StartMissing` | apps/worker/__main__.py:169-183 | Starts each wanted runtime that does not run, once, and no other |
| `Supervisor.ConnectionSupervisor.Pass` | apps/worker/__main__.py:160-183 | One pass in the sense of the theorems; the runtime map becomes that of the first discovered credentials up to the limit |
| `Supervisor.ConnectionSupervisor.StopAll` | apps/worker/__main__.py:185-189 | From whatever state, stops each running runtime once and leaves none |
| `Supervisor.ConnectionSupervisor.Supervise` | apps/worker/__main__.py:157-189 | The log of all passes and the final stop is a history, and nothing runs at the end |

## Left out

- OptionsEngine.PayoffIsBounded: exact arithmetic; the rounding of the 28-digit `Decimal` context and of the numeric database columns is not modelled.
- OrderIdentity.DoubleExistsIff: for orders whose own fields hold no bar; the order that shares the text is unrestricted.
- OrderIdentity.EqualIdsMeanEqualOrders: for prices that `normalize` does not round, that is of at most 28 significant digits, and for ids that do not collide after the truncation of the hash.
- LabEvidence.ComputeMetrics: total return and drawdown only; Sharpe ratio, win rate, profit factor and costs are not modelled, and for curves with a nonpositive point only the errors and the total return are stated.
- LabEvidence.KeptAreNearest: compares squared distances; rounding in the square root could merge two distances.
- Opportunity.Analyze: begins at the option chain; feature extraction, signals and `evaluate_contract` are parameters, of which only what the liquidity filter guarantees of a contract is assumed. An account equity that is not positive, which the risk context rejects by raising, is excluded by its type.
- Registration.UsersAreComplete: speaks of users that `register` creates. Users by login are only those of a subject that a registration created, inserted while its identity exists; a token that outlives its identity, administrators and the provisioning of their workspaces are not modelled.
- Registration.RegistrationService.Register: without interruption; a death of the call is an event of the saga only. A provider thread that finishes after its call was cancelled appears as a failed creation that left an identity behind.
- Desk.ClosedUntilApply: the credential row itself is removed in an earlier transaction, which the model does not show.
- BrokerProjection.ReconciliationService.Reconcile: the snapshot is one value; that the adapter fetches account, positions and orders in three requests is not modelled.
- BrokerProjection.ReconciliationService.ConsumeTradeUpdates: a disconnect is the recorded event; that the adapter may fail to notice a dead stream is not modelled, nor is liveness of any kind.
- Orders, positions, accounts, contracts and quotes carry the fields that decisions read, not all columns.
- Drivers, HTTP, authentication tokens, encryption, prompts and AI providers, replay fixtures, the scanner loops, logging and the web front end.
- SQL is modelled as functions on maps with the unique constraints and row locks that the code relies on.
- `GuardianEngine.evaluate`, `compute_fingerprint`, `execution_cost` and `score_signal`: each is settled by reading its body.
- Supervisor.InterruptionStopsAll: when the supervisor is cancelled while it awaits one runtime's end, the final stop awaits that runtime again; the second, ineffective stop is not an event.
- A runtime whose task ended by itself keeps its entry in the supervisor's map, as in the program; that it is not restarted is not stated.
