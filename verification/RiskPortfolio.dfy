/** The risk engine (packages/risk/engine.py) and the bound that its approvals give a
    portfolio, composed with the payoff engine. */
module RiskPortfolio {

  import opened Common
  import opened OptionsEngine

  datatype Policy = Policy(
    perTradePct: Positive,
    totalOpenPct: Positive,
    concentrationPct: Positive,
    dailyLossPct: Positive,
    drawdownPct: Positive,
    maxStructures: PositiveInt,
    maxDelta: Positive, maxGamma: Positive, maxTheta: Positive, maxVega: Positive)

  const DEFAULT_POLICY := Policy(0.5, 4.0, 10.0, 2.0, 10.0, 8, 5000.0, 1000.0, 1000.0, 5000.0)

  datatype Context = Context(
    equity: Positive,
    openPlannedLoss: NonNegative,
    underlyingOpenRisk: NonNegative,
    dailyLoss: NonNegative,
    drawdownPercent: NonNegative,
    structures: nat,
    portfolio: Greeks,
    brokerAllowed: bool,
    duplicateOrder: bool)

  datatype CheckName =
    | BrokerState | DuplicateOrder | PerTradeLoss | TotalOpenLoss | Concentration
    | DailyLossHalt | DrawdownHalt | PositionCount | GreekLimits

  datatype Check = Check(name: CheckName, passed: bool)

  datatype Decision = Decision(approved: bool, checks: seq<Check>, budgetUsed: real, maxLoss: real)

  function Percent(part: real, whole: Positive): real {
    part / whole * 100.0
  }

  predicate GreeksWithin(p: Policy, a: Greeks, b: Greeks) {
    && Abs(a.delta + b.delta) <= p.maxDelta
    && Abs(a.gamma + b.gamma) <= p.maxGamma
    && Abs(a.theta + b.theta) <= p.maxTheta
    && Abs(a.vega + b.vega) <= p.maxVega
  }

  function Checks(p: Policy, s: Structure, c: Context): seq<Check> {
    [ Check(BrokerState, c.brokerAllowed),
      Check(DuplicateOrder, !c.duplicateOrder),
      Check(PerTradeLoss, Percent(s.maxLoss, c.equity) <= p.perTradePct),
      Check(TotalOpenLoss, Percent(c.openPlannedLoss + s.maxLoss, c.equity) <= p.totalOpenPct),
      Check(Concentration, Percent(c.underlyingOpenRisk + s.maxLoss, c.equity) <= p.concentrationPct),
      Check(DailyLossHalt, Percent(c.dailyLoss, c.equity) < p.dailyLossPct),
      Check(DrawdownHalt, c.drawdownPercent < p.drawdownPct),
      Check(PositionCount, c.structures < p.maxStructures),
      Check(GreekLimits, GreeksWithin(p, c.portfolio, s.greeks)) ]
  }

  function Evaluate(p: Policy, s: Structure, c: Context): Decision {
    var checks := Checks(p, s, c);
    Decision(forall i :: 0 <= i < |checks| ==> checks[i].passed, checks, s.maxLoss / c.equity, s.maxLoss)
  }

  /** What an approval says, check by check; a rejection means that one of these fails. */
  lemma ApprovedMeans(p: Policy, s: Structure, c: Context)
    ensures Evaluate(p, s, c).approved <==>
      && c.brokerAllowed && !c.duplicateOrder
      && Percent(s.maxLoss, c.equity) <= p.perTradePct
      && Percent(c.openPlannedLoss + s.maxLoss, c.equity) <= p.totalOpenPct
      && Percent(c.underlyingOpenRisk + s.maxLoss, c.equity) <= p.concentrationPct
      && Percent(c.dailyLoss, c.equity) < p.dailyLossPct
      && c.drawdownPercent < p.drawdownPct
      && c.structures < p.maxStructures
      && GreeksWithin(p, c.portfolio, s.greeks)
  {
    var checks := Checks(p, s, c);
    assert |checks| == 9;
    if forall i :: 0 <= i < |checks| ==> checks[i].passed {
      assert checks[0].passed && checks[1].passed && checks[2].passed && checks[3].passed && checks[4].passed
        && checks[5].passed && checks[6].passed && checks[7].passed && checks[8].passed;
    }
  }

  /** An approval under the default policy, with every limit written out. */
  lemma DefaultApprovalMeans(s: Structure, c: Context)
    ensures Evaluate(DEFAULT_POLICY, s, c).approved <==>
      && c.brokerAllowed && !c.duplicateOrder
      && s.maxLoss / c.equity * 100.0 <= 0.5
      && (c.openPlannedLoss + s.maxLoss) / c.equity * 100.0 <= 4.0
      && (c.underlyingOpenRisk + s.maxLoss) / c.equity * 100.0 <= 10.0
      && c.dailyLoss / c.equity * 100.0 < 2.0
      && c.drawdownPercent < 10.0
      && c.structures < 8
      && -5000.0 <= c.portfolio.delta + s.greeks.delta <= 5000.0
      && -1000.0 <= c.portfolio.gamma + s.greeks.gamma <= 1000.0
      && -1000.0 <= c.portfolio.theta + s.greeks.theta <= 1000.0
      && -5000.0 <= c.portfolio.vega + s.greeks.vega <= 5000.0
  {
    ApprovedMeans(DEFAULT_POLICY, s, c);
  }

  /** The decision reports the structure's loss, its share of the equity, and the nine checks
      in their order. */
  lemma DecisionReports(p: Policy, s: Structure, c: Context)
    ensures var d := Evaluate(p, s, c);
      && d.maxLoss == s.maxLoss && d.budgetUsed * c.equity == s.maxLoss && |d.checks| == 9
      && d.checks[0].name == BrokerState && d.checks[1].name == DuplicateOrder && d.checks[2].name == PerTradeLoss
      && d.checks[3].name == TotalOpenLoss && d.checks[4].name == Concentration && d.checks[5].name == DailyLossHalt
      && d.checks[6].name == DrawdownHalt && d.checks[7].name == PositionCount && d.checks[8].name == GreekLimits
      && (d.approved <==> forall i | 0 <= i < 9 :: d.checks[i].passed)
  {
  }

  /** A share of the equity, given as a percentage. */
  function Share(pct: real, equity: real): real {
    pct * equity / 100.0
  }

  lemma PercentIsShare(part: real, whole: Positive, pct: real)
    ensures Percent(part, whole) <= pct <==> part <= Share(pct, whole)
  {
    var q := part / whole;
    assert part == q * whole;
    if q * 100.0 <= pct {
      assert q * whole <= (pct / 100.0) * whole;
      assert (pct / 100.0) * whole == pct * whole / 100.0;
    } else {
      assert q * whole > (pct / 100.0) * whole;
      assert (pct / 100.0) * whole == pct * whole / 100.0;
    }
  }

  // ----- Portfolios -----

  function TotalMaxLoss(portfolio: seq<Structure>): real {
    if portfolio == [] then 0.0 else
    TotalMaxLoss(portfolio[..|portfolio| - 1]) + portfolio[|portfolio| - 1].maxLoss
  }

  /** The summed payoff when structure `i` expires at `prices[i]`. */
  function TotalPayoff(portfolio: seq<Structure>, prices: seq<real>): real
    requires |prices| == |portfolio|
  {
    if portfolio == [] then 0.0 else
    var n := |portfolio| - 1;
    TotalPayoff(portfolio[..n], prices[..n]) + Payoff(portfolio[n], prices[n])
  }

  ghost predicate AllBuilt(portfolio: seq<Structure>) {
    forall i :: 0 <= i < |portfolio| ==> IsBuilt(portfolio[i])
  }

  /** The structures were approved one after another, at one equity; `contexts[i]` is what
      the engine was told when it approved the `i`-th. */
  predicate ApprovedInTurn(p: Policy, equity: real, portfolio: seq<Structure>, contexts: seq<Context>) {
    && |contexts| == |portfolio|
    && forall i :: 0 <= i < |portfolio| ==>
         contexts[i].equity == equity && Evaluate(p, portfolio[i], contexts[i]).approved
  }

  /** The planned loss reported for each approval was that of the structures before it. */
  predicate LossIsAccurate(portfolio: seq<Structure>, contexts: seq<Context>)
    requires |contexts| == |portfolio|
  {
    forall i :: 0 <= i < |portfolio| ==> contexts[i].openPlannedLoss == TotalMaxLoss(portfolio[..i])
  }

  /** The structure count reported for each approval was at least the true one. */
  predicate CountIsAccurate(portfolio: seq<Structure>, contexts: seq<Context>)
    requires |contexts| == |portfolio|
  {
    forall i :: 0 <= i < |portfolio| ==> contexts[i].structures >= i
  }

  /** For every assignment of expiry prices, the portfolio loses at most its summed maximum losses. */
  lemma {:induction false} PayoffsCoverMaxLosses(portfolio: seq<Structure>, prices: seq<real>)
    requires AllBuilt(portfolio) && |prices| == |portfolio|
    requires forall i :: 0 <= i < |prices| ==> prices[i] >= 0.0
    ensures TotalPayoff(portfolio, prices) >= -TotalMaxLoss(portfolio)
    decreases |portfolio|
  {
    if portfolio != [] {
      var n := |portfolio| - 1;
      PayoffsCoverMaxLosses(portfolio[..n], prices[..n]);
      PayoffIsBounded(portfolio[n], prices[n]);
    }
  }

  /** With an accurate planned loss the total stays within the policy's share of the equity. */
  lemma TotalLossIsWithinPolicy(p: Policy, equity: Positive, portfolio: seq<Structure>, contexts: seq<Context>)
    requires ApprovedInTurn(p, equity, portfolio, contexts) && LossIsAccurate(portfolio, contexts)
    ensures TotalMaxLoss(portfolio) <= Share(p.totalOpenPct, equity)
  {
    if portfolio == [] {
      PositiveShare(p.totalOpenPct, equity);
    } else {
      var n := |portfolio| - 1;
      ApprovedMeans(p, portfolio[n], contexts[n]);
      PercentIsShare(contexts[n].openPlannedLoss + portfolio[n].maxLoss, equity, p.totalOpenPct);
    }
  }

  lemma PositiveShare(pct: Positive, equity: Positive)
    ensures Share(pct, equity) >= 0.0
  {
  }

  /** `n` times an amount. */
  function Multiple(n: nat, x: real): real {
    n as real * x
  }

  lemma {:induction false} EachBoundsTotal(portfolio: seq<Structure>, x: real)
    requires forall i :: 0 <= i < |portfolio| ==> portfolio[i].maxLoss <= x
    ensures TotalMaxLoss(portfolio) <= Multiple(|portfolio|, x)
    decreases |portfolio|
  {
    if portfolio != [] {
      var n := |portfolio| - 1;
      EachBoundsTotal(portfolio[..n], x);
      NextMultiple(n, x);
    }
  }

  lemma TradeIsWithinPolicy(p: Policy, equity: Positive, s: Structure, c: Context)
    requires c.equity == equity && Evaluate(p, s, c).approved
    ensures s.maxLoss <= Share(p.perTradePct, equity)
  {
    ApprovedMeans(p, s, c);
    PercentIsShare(s.maxLoss, equity, p.perTradePct);
  }

  /** Whatever planned loss is reported, each trade stays within the per-trade share. */
  lemma PerTradeBoundsTotal(p: Policy, equity: Positive, portfolio: seq<Structure>, contexts: seq<Context>)
    requires ApprovedInTurn(p, equity, portfolio, contexts)
    ensures TotalMaxLoss(portfolio) <= Multiple(|portfolio|, Share(p.perTradePct, equity))
  {
    forall i | 0 <= i < |portfolio| ensures portfolio[i].maxLoss <= Share(p.perTradePct, equity) {
      TradeIsWithinPolicy(p, equity, portfolio[i], contexts[i]);
    }
    EachBoundsTotal(portfolio, Share(p.perTradePct, equity));
  }

  lemma NextMultiple(n: nat, x: real)
    ensures Multiple(n + 1, x) == Multiple(n, x) + x
  {
    assert (n + 1) as real == n as real + 1.0;
  }

  lemma CountIsWithinPolicy(p: Policy, equity: Positive, portfolio: seq<Structure>, contexts: seq<Context>)
    requires ApprovedInTurn(p, equity, portfolio, contexts) && CountIsAccurate(portfolio, contexts)
    ensures |portfolio| <= p.maxStructures
  {
    if portfolio != [] {
      ApprovedMeans(p, portfolio[|portfolio| - 1], contexts[|portfolio| - 1]);
    }
  }

  /** The portfolio bound: with accurate planned losses, whatever the expiry prices, an
      approved portfolio of built structures loses at most the policy's share of the equity. */
  lemma PortfolioLossIsBounded(p: Policy, equity: Positive, portfolio: seq<Structure>,
                               contexts: seq<Context>, prices: seq<real>)
    requires ApprovedInTurn(p, equity, portfolio, contexts) && LossIsAccurate(portfolio, contexts)
    requires AllBuilt(portfolio) && |prices| == |portfolio|
    requires forall i :: 0 <= i < |prices| ==> prices[i] >= 0.0
    ensures TotalPayoff(portfolio, prices) >= -Share(p.totalOpenPct, equity)
  {
    TotalLossIsWithinPolicy(p, equity, portfolio, contexts);
    PayoffsCoverMaxLosses(portfolio, prices);
  }

  /** The callers report a planned loss of zero. The default per-trade and count checks
      alone then give the same bound, 4 percent, when the count is not too low. */
  lemma DefaultPortfolioLossIsBounded(equity: Positive, portfolio: seq<Structure>,
                                      contexts: seq<Context>, prices: seq<real>)
    requires ApprovedInTurn(DEFAULT_POLICY, equity, portfolio, contexts) && CountIsAccurate(portfolio, contexts)
    requires AllBuilt(portfolio) && |prices| == |portfolio|
    requires forall i :: 0 <= i < |prices| ==> prices[i] >= 0.0
    ensures TotalPayoff(portfolio, prices) >= -Share(4.0, equity)
    ensures Share(4.0, equity) == Share(DEFAULT_POLICY.totalOpenPct, equity)
  {
    DefaultTotalLossIsBounded(equity, portfolio, contexts);
    PayoffsCoverMaxLosses(portfolio, prices);
  }

  lemma DefaultTotalLossIsBounded(equity: Positive, portfolio: seq<Structure>, contexts: seq<Context>)
    requires ApprovedInTurn(DEFAULT_POLICY, equity, portfolio, contexts) && CountIsAccurate(portfolio, contexts)
    ensures TotalMaxLoss(portfolio) <= Share(4.0, equity)
  {
    CountIsWithinPolicy(DEFAULT_POLICY, equity, portfolio, contexts);
    EightApprovedStayWithin(equity, portfolio, contexts);
  }

  lemma EightHalves(n: nat, equity: Positive)
    requires n <= 8
    ensures Multiple(n, Share(0.5, equity)) <= Share(4.0, equity)
  {
    var x := Share(0.5, equity);
    assert Share(4.0, equity) == 8.0 * x;
    assert n as real * x <= 8.0 * x;
  }

  // ----- Planned losses reported as zero -----

  function Copies<T>(n: nat, x: T): (r: seq<T>)
    ensures |r| == n && forall i :: 0 <= i < n ==> r[i] == x
  {
    seq(n, i => x)
  }

  /** With a planned loss of zero and no count the total check does not bound the portfolio:
      any number of approvals of one structure is possible. */
  lemma ZeroPlannedLossBoundsNothing(p: Policy, c: Context, s: Structure, n: nat)
    requires c.openPlannedLoss == 0.0 && Evaluate(p, s, c).approved
    ensures ApprovedInTurn(p, c.equity, Copies(n, s), Copies(n, c))
    ensures TotalMaxLoss(Copies(n, s)) == Multiple(n, s.maxLoss)
  {
    RepeatedLoss(Copies(n, s), s.maxLoss);
  }

  lemma {:induction false} RepeatedLoss(portfolio: seq<Structure>, x: real)
    requires forall i :: 0 <= i < |portfolio| ==> portfolio[i].maxLoss == x
    ensures TotalMaxLoss(portfolio) == Multiple(|portfolio|, x)
    decreases |portfolio|
  {
    if portfolio != [] {
      var n := |portfolio| - 1;
      RepeatedLoss(portfolio[..n], x);
      NextMultiple(n, x);
    }
  }

  /** So whatever can lose anything exceeds the share at some number of approvals. */
  lemma RepetitionExceedsShare(p: Policy, c: Context, s: Structure) returns (n: nat)
    requires c.openPlannedLoss == 0.0 && Evaluate(p, s, c).approved && s.maxLoss > 0.0
    ensures ApprovedInTurn(p, c.equity, Copies(n, s), Copies(n, c))
    ensures TotalMaxLoss(Copies(n, s)) > Share(p.totalOpenPct, c.equity)
  {
    n := MultipleAbove(Share(p.totalOpenPct, c.equity), s.maxLoss);
    ZeroPlannedLossBoundsNothing(p, c, s, n);
  }

  lemma MultipleAbove(bound: real, x: real) returns (n: nat)
    requires x > 0.0
    ensures Multiple(n, x) > bound
  {
    var q := bound / x;
    n := if q < 0.0 then 1 else q.Floor + 1;
    assert n as real > q && q * x == bound;
    assert n as real * x > q * x;
  }

  const FLAT := Greeks(0.0, 0.0, 0.0, 0.0)

  /** A call for 100 shares at a price per share. */
  function CallAt(price: Positive): Leg {
    Leg(Contract("XYZ C100", "XYZ", 30, 100.0, Call, 100, Quote(price, price, Some(FLAT))), Long, 1, price)
  }

  function LongCallAt(price: Positive): Structure {
    Structure(LongCall, 1, [CallAt(price)], None, price, 100.0 * price, None, 100.0 + price, FLAT)
  }

  /** Nothing open, nothing lost, all allowed. */
  function Quiet(equity: Positive): Context {
    Context(equity, 0.0, 0.0, 0.0, 0.0, 0, FLAT, true, false)
  }

  lemma FlatLeg(leg: Leg, quantity: int)
    requires leg.contract.quote.greeks == Some(FLAT)
    ensures Scaled(leg, quantity) == FLAT
  {
    ScaledFlat(Scale(leg, quantity));
  }

  lemma ScaledFlat(scale: real)
    ensures ScaledBy(FLAT, scale) == FLAT
  {
  }

  lemma OneLegGreeks(legs: seq<Leg>, quantity: int)
    requires |legs| == 1 && legs[0].contract.quote.greeks == Some(FLAT)
    ensures HasGreeks(legs) && PositionGreeks(legs, quantity, None) == FLAT
  {
    assert HasGreeks(legs);
    FlatLeg(legs[0], quantity);
    FlatSum(legs, quantity, Scaled(legs[0], quantity));
  }

  lemma FlatSum(legs: seq<Leg>, quantity: int, g: Greeks)
    requires HasGreeks(legs) && |legs| == 1 && g == Scaled(legs[0], quantity) && g == FLAT
    ensures PositionGreeks(legs, quantity, None) == FLAT
  {
    assert legs[..|legs| - 1] == [];
    var none: seq<Leg> := [];
    assert LegsGreeks(none, quantity) == FLAT;
  }

  lemma OneLeg(legs: seq<Leg>)
    requires |legs| == 1 && legs[0].side == Long && legs[0].ratio == 1
    ensures Premium(legs) == legs[0].entryPrice && CommonError(legs, legs[0].contract).None?
  {
    PremiumOf(legs);
    assert legs[1..] == [];
  }

  lemma CallRisk(legs: seq<Leg>, price: real, k: real, loss: real)
    requires |legs| == 1 && legs[0].side == Long && legs[0].contract.optionType == Call
    requires Premium(legs) == price > 0.0 && k == ScaleOf(legs[0].contract, 1) && loss == Times(price, k)
    ensures DeclaredRisk(LongCall, legs, 1, None) == Ok(Risk(loss, None, legs[0].contract.strike + price))
  {
    assert Outright(LongCall, legs, None, price, k) == Ok(Risk(loss, None, legs[0].contract.strike + price));
  }

  lemma BuiltFrom(s: Structure, risk: Risk)
    requires s.legs != [] && CommonError(s.legs, s.legs[0].contract).None?
    requires DeclaredRisk(s.structureType, s.legs, s.quantity, s.underlying) == Ok(risk)
    requires risk.maxLoss >= 0.0 && (risk.maxProfit.Some? ==> risk.maxProfit.value >= 0.0)
    requires HasGreeks(s.legs) && s.greeks == PositionGreeks(s.legs, s.quantity, s.underlying)
    requires s.netPremium == Premium(s.legs)
    requires s.maxLoss == risk.maxLoss && s.maxProfit == risk.maxProfit && s.breakEven == risk.breakEven
    ensures IsBuilt(s)
  {
  }

  lemma CallIsBuilt(s: Structure, legs: seq<Leg>, price: Positive, k: real, loss: NonNegative)
    requires |legs| == 1 && legs[0].side == Long && legs[0].ratio == 1 && legs[0].contract.optionType == Call
    requires legs[0].entryPrice == price && legs[0].contract.quote.greeks == Some(FLAT)
    requires k == ScaleOf(legs[0].contract, 1) && loss == Times(price, k)
    requires s == Structure(LongCall, 1, legs, None, price, loss, None, legs[0].contract.strike + price, FLAT)
    ensures IsBuilt(s)
  {
    OneLeg(legs);
    OneLegGreeks(legs, 1);
    CallRisk(legs, price, k, loss);
    BuiltFrom(s, Risk(loss, None, legs[0].contract.strike + price));
  }

  lemma LongCallIsBuilt(price: Positive)
    ensures IsBuilt(LongCallAt(price))
  {
    var k := ScaleOf(CallAt(price).contract, 1);
    assert k == 100.0;
    CallIsBuilt(LongCallAt(price), [CallAt(price)], price, k, 100.0 * price);
  }

  lemma LongCallIsApproved(equity: Positive, price: Positive)
    requires 100.0 * price <= Share(0.5, equity)
    ensures Evaluate(DEFAULT_POLICY, LongCallAt(price), Quiet(equity)).approved
  {
    var s, c := LongCallAt(price), Quiet(equity);
    PercentIsShare(s.maxLoss, equity, 0.5);
    PercentIsShare(s.maxLoss, equity, 4.0);
    PercentIsShare(s.maxLoss, equity, 10.0);
    NothingIsZeroPercent(equity);
    ApprovedMeans(DEFAULT_POLICY, s, c);
  }

  lemma NothingIsZeroPercent(equity: Positive)
    ensures Percent(0.0, equity) == 0.0
  {
  }

  predicate PlannedAsZero(contexts: seq<Context>) {
    forall i :: 0 <= i < |contexts| ==> contexts[i].openPlannedLoss == 0.0
  }

  /** Built structures, approved in turn under the default policy with planned losses of zero. */
  ghost predicate IsDefaultPortfolio(equity: Positive, portfolio: seq<Structure>, contexts: seq<Context>) {
    && AllBuilt(portfolio) && ApprovedInTurn(DEFAULT_POLICY, equity, portfolio, contexts) && PlannedAsZero(contexts)
  }

  ghost predicate StaysWithinDefault(equity: Positive, n: nat) {
    forall portfolio, contexts | |portfolio| == n && IsDefaultPortfolio(equity, portfolio, contexts) ::
      TotalMaxLoss(portfolio) <= Share(4.0, equity)
  }

  lemma CopiesAreDefaultPortfolio(equity: Positive, s: Structure, c: Context, n: nat)
    requires IsBuilt(s) && c.equity == equity && c.openPlannedLoss == 0.0 && Evaluate(DEFAULT_POLICY, s, c).approved
    ensures IsDefaultPortfolio(equity, Copies(n, s), Copies(n, c))
    ensures TotalMaxLoss(Copies(n, s)) == Multiple(n, s.maxLoss)
  {
    ZeroPlannedLossBoundsNothing(DEFAULT_POLICY, c, s, n);
  }

  /** Any number of calls within the per-trade share. */
  lemma CallsAreDefaultPortfolio(equity: Positive, price: Positive, n: nat, loss: real)
    requires loss == 100.0 * price <= Share(0.5, equity)
    ensures IsDefaultPortfolio(equity, Copies(n, LongCallAt(price)), Copies(n, Quiet(equity)))
    ensures TotalMaxLoss(Copies(n, LongCallAt(price))) == Multiple(n, loss)
  {
    LongCallIsBuilt(price);
    LongCallIsApproved(equity, price);
    CopiesAreDefaultPortfolio(equity, LongCallAt(price), Quiet(equity), n);
  }

  lemma NineHalves(n: nat, equity: Positive, x: real)
    requires n > 8 && x == Share(0.5, equity)
    ensures Multiple(n, x) > Share(4.0, equity)
  {
    assert n as real >= 9.0 && x > 0.0;
    assert n as real * x >= 9.0 * x;
  }

  /** Calls that each take the whole per-trade share. */
  lemma FullCallsExceed(equity: Positive, n: nat)
    requires n > 8
    ensures !StaysWithinDefault(equity, n)
  {
    var price: Positive, loss := equity / 20000.0, Share(0.5, equity);
    CallsAreDefaultPortfolio(equity, price, n, loss);
    NineHalves(n, equity, loss);
    OneIsEnough(equity, Copies(n, LongCallAt(price)), Copies(n, Quiet(equity)));
  }

  lemma OneIsEnough(equity: Positive, portfolio: seq<Structure>, contexts: seq<Context>)
    requires IsDefaultPortfolio(equity, portfolio, contexts) && TotalMaxLoss(portfolio) > Share(4.0, equity)
    ensures !StaysWithinDefault(equity, |portfolio|)
  {
  }

  lemma EightStayWithin(equity: Positive, portfolio: seq<Structure>, contexts: seq<Context>)
    requires |portfolio| <= 8 && IsDefaultPortfolio(equity, portfolio, contexts)
    ensures TotalMaxLoss(portfolio) <= Share(4.0, equity)
  {
    EightApprovedStayWithin(equity, portfolio, contexts);
  }

  lemma EightApprovedStayWithin(equity: Positive, portfolio: seq<Structure>, contexts: seq<Context>)
    requires |portfolio| <= 8 && ApprovedInTurn(DEFAULT_POLICY, equity, portfolio, contexts)
    ensures TotalMaxLoss(portfolio) <= Share(4.0, equity)
  {
    forall i | 0 <= i < |portfolio| ensures portfolio[i].maxLoss <= Share(0.5, equity) {
      TradeIsWithinPolicy(DEFAULT_POLICY, equity, portfolio[i], contexts[i]);
    }
    EightOfEach(portfolio, equity);
  }

  lemma EightOfEach(portfolio: seq<Structure>, equity: Positive)
    requires |portfolio| <= 8 && forall i :: 0 <= i < |portfolio| ==> portfolio[i].maxLoss <= Share(0.5, equity)
    ensures TotalMaxLoss(portfolio) <= Share(4.0, equity)
  {
    EachBoundsTotal(portfolio, Share(0.5, equity));
    EightHalves(|portfolio|, equity);
  }

  /** With the zero that the callers report, under the default policy and at every equity:
      all portfolios of `n` built structures approved in turn stay within the 4 percent
      exactly when there are no more than 8. */
  lemma DefaultShareHoldsIff(equity: Positive, n: nat)
    ensures StaysWithinDefault(equity, n) <==> n <= 8
  {
    if n > 8 {
      FullCallsExceed(equity, n);
    } else {
      forall portfolio, contexts | |portfolio| == n && IsDefaultPortfolio(equity, portfolio, contexts)
        ensures TotalMaxLoss(portfolio) <= Share(4.0, equity)
      {
        EightStayWithin(equity, portfolio, contexts);
      }
    }
  }

  lemma CallAtZero(price: Positive)
    ensures Payoff(LongCallAt(price), 0.0) == -100.0 * price
  {
    var legs := [CallAt(price)];
    assert legs[..0] == [];
    assert LegsPayoff(legs, 1, 0.0) == LegPayoff(CallAt(price), 1, 0.0);
  }

  lemma {:induction false} RepeatedPayoff(portfolio: seq<Structure>, prices: seq<real>, x: real)
    requires |prices| == |portfolio| && forall i :: 0 <= i < |portfolio| ==> Payoff(portfolio[i], prices[i]) == x
    ensures TotalPayoff(portfolio, prices) == Multiple(|portfolio|, x)
    decreases |portfolio|
  {
    if portfolio != [] {
      var n := |portfolio| - 1;
      RepeatedPayoff(portfolio[..n], prices[..n], x);
      assert TotalPayoff(portfolio, prices) == TotalPayoff(portfolio[..n], prices[..n]) + x;
      NextMultiple(n, x);
    }
  }

  /** More than 4 percent is at risk, and lost when all expire at `price`. */
  ghost predicate Exceeds(equity: Positive, s: Structure, c: Context, n: nat, price: real) {
    && IsDefaultPortfolio(equity, Copies(n, s), Copies(n, c))
    && TotalMaxLoss(Copies(n, s)) > Share(4.0, equity)
    && TotalPayoff(Copies(n, s), Copies(n, price)) < -Share(4.0, equity)
  }

  lemma CallsExceed(equity: Positive, price: Positive, n: nat, loss: real)
    requires loss == 100.0 * price <= Share(0.5, equity) && Multiple(n, loss) > Share(4.0, equity)
    ensures Exceeds(equity, LongCallAt(price), Quiet(equity), n, 0.0)
  {
    CallsAreDefaultPortfolio(equity, price, n, loss);
    CallAtZero(price);
    CallsPay(price, n, loss);
  }

  lemma CallsPay(price: Positive, n: nat, loss: real)
    requires Payoff(LongCallAt(price), 0.0) == -loss
    ensures TotalPayoff(Copies(n, LongCallAt(price)), Copies(n, 0.0)) == -Multiple(n, loss)
  {
    RepeatedPayoff(Copies(n, LongCallAt(price)), Copies(n, 0.0), -loss);
  }

  /** An input on which the bound fails: 41 approvals of a call at 1.00 at an equity of
      100000 put more than the 4 percent at risk, and all is lost at a price of zero. */
  lemma DefaultShareCanBeExceeded() returns (equity: Positive, price: Positive, n: nat)
    ensures equity == 100000.0 && price == 1.0 && n == 41
    ensures Exceeds(equity, LongCallAt(price), Quiet(equity), n, 0.0)
  {
    equity, price, n := 100000.0, 1.0, 41;
    CallsExceed(equity, price, n, 100.0);
  }
}
