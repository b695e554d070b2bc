/** The options payoff engine (packages/options/engine.py) over exact rationals.

    `BuildStructure` declares the maximum loss, the maximum profit and the
    break-evens of eight structures; `ExpirationPayoff` computes the profit at
    expiry by an independent loop over the legs. The lemmas prove the declared
    figures against that loop, for every price. */
module OptionsEngine {

  import opened Common

  type Positive = x: real | x > 0.0 witness 1.0
  type NonNegative = x: real | x >= 0.0 witness 0.0
  type PositiveInt = n: int | n >= 1 witness 1

  datatype OptionType = Call | Put
  datatype LegSide = Long | Short

  datatype StructureType =
    | LongCall | LongPut
    | BullCallDebit | BearPutDebit | BullPutCredit | BearCallCredit
    | ProtectivePut | ProtectivePutSpread

  datatype Greeks = Greeks(delta: real, gamma: real, theta: real, vega: real)

  datatype Quote = Quote(bid: NonNegative, ask: NonNegative, greeks: Option<Greeks>)

  datatype Contract = Contract(
    symbol: string, underlying: string, expiration: int,
    strike: Positive, optionType: OptionType, multiplier: PositiveInt, quote: Quote)

  datatype Leg = Leg(contract: Contract, side: LegSide, ratio: PositiveInt, entryPrice: NonNegative)

  datatype UnderlyingLeg = UnderlyingLeg(symbol: string, shares: PositiveInt, entryPrice: Positive)

  datatype Structure = Structure(
    structureType: StructureType,
    quantity: PositiveInt,
    legs: seq<Leg>,
    underlying: Option<UnderlyingLeg>,
    netPremium: real,
    maxLoss: real,
    maxProfit: Option<real>,
    breakEven: real,
    greeks: Greeks)

  /** The message of an `InvalidOptionStructure`. */
  type Invalid = string

  function Sign(side: LegSide): real {
    if side == Long then 1.0 else -1.0
  }

  function Max(a: real, b: real): real {
    if a >= b then a else b
  }

  function Abs(a: real): real {
    if a >= 0.0 then a else -a
  }

  // ----- Payoff -----

  function Intrinsic(c: Contract, price: real): real {
    if c.optionType == Call then Max(price - c.strike, 0.0) else Max(c.strike - price, 0.0)
  }

  /** Payoff of one leg at expiry, entry price included. */
  function LegPayoff(leg: Leg, quantity: int, price: real): real {
    Amount(leg, Intrinsic(leg.contract, price), quantity) - Amount(leg, leg.entryPrice, quantity)
  }

  function Amount(leg: Leg, price: real, quantity: int): real {
    Sign(leg.side) * price * leg.ratio as real * leg.contract.multiplier as real * quantity as real
  }

  function LegsPayoff(legs: seq<Leg>, quantity: int, price: real): real {
    if legs == [] then 0.0 else
    LegsPayoff(legs[..|legs| - 1], quantity, price) + LegPayoff(legs[|legs| - 1], quantity, price)
  }

  function Gain(u: UnderlyingLeg, price: real): real {
    (price - u.entryPrice) * u.shares as real
  }

  function UnderlyingPayoff(underlying: Option<UnderlyingLeg>, price: real): real {
    match underlying
    case None => 0.0
    case Some(u) => Gain(u, price)
  }

  /** Profit or loss of a structure when the underlying ends at `price`. */
  function Payoff(s: Structure, price: real): real {
    LegsPayoff(s.legs, s.quantity, price) + UnderlyingPayoff(s.underlying, price)
  }

  method ExpirationPayoff(s: Structure, price: real) returns (r: Result<real, Invalid>)
    ensures price < 0.0 ==> r.Err?
    ensures price >= 0.0 ==> r == Ok(Payoff(s, price))
  {
    if price < 0.0 {
      return Err("underlying price cannot be negative");
    }
    var payoff := 0.0;
    for i := 0 to |s.legs|
      invariant payoff == LegsPayoff(s.legs[..i], s.quantity, price)
    {
      var leg := s.legs[i];
      assert s.legs[..i + 1][..i] == s.legs[..i];
      var intrinsic := if leg.contract.optionType == Call then Max(price - leg.contract.strike, 0.0)
                       else Max(leg.contract.strike - price, 0.0);
      payoff := payoff + Amount(leg, intrinsic, s.quantity);
      payoff := payoff - Amount(leg, leg.entryPrice, s.quantity);
    }
    assert s.legs[..|s.legs|] == s.legs;
    if s.underlying.Some? {
      payoff := payoff + Gain(s.underlying.value, price);
    }
    assert payoff == Payoff(s, price);
    return Ok(payoff);
  }

  // ----- Greeks -----

  predicate HasGreeks(legs: seq<Leg>) {
    forall i :: 0 <= i < |legs| ==> legs[i].contract.quote.greeks.Some?
  }

  function ScaledBy(g: Greeks, scale: real): Greeks {
    Greeks(g.delta * scale, g.gamma * scale, g.theta * scale, g.vega * scale)
  }

  function Scaled(leg: Leg, quantity: int): Greeks
    requires leg.contract.quote.greeks.Some?
  {
    ScaledBy(leg.contract.quote.greeks.value, Scale(leg, quantity))
  }

  function Scale(leg: Leg, quantity: int): real {
    Sign(leg.side) * leg.ratio as real * quantity as real * leg.contract.multiplier as real
  }

  function Plus(a: Greeks, b: Greeks): Greeks {
    Greeks(a.delta + b.delta, a.gamma + b.gamma, a.theta + b.theta, a.vega + b.vega)
  }

  function LegsGreeks(legs: seq<Leg>, quantity: int): Greeks
    requires HasGreeks(legs)
  {
    if legs == [] then Greeks(0.0, 0.0, 0.0, 0.0) else
    Plus(LegsGreeks(legs[..|legs| - 1], quantity), Scaled(legs[|legs| - 1], quantity))
  }

  function PositionGreeks(legs: seq<Leg>, quantity: int, underlying: Option<UnderlyingLeg>): Greeks
    requires HasGreeks(legs)
  {
    var g := LegsGreeks(legs, quantity);
    match underlying
    case None => g
    case Some(u) => g.(delta := g.delta + u.shares as real)
  }

  lemma GreeksSnoc(legs: seq<Leg>, i: nat, quantity: int)
    requires i < |legs| && HasGreeks(legs[..i]) && legs[i].contract.quote.greeks.Some?
    ensures HasGreeks(legs[..i + 1])
    ensures LegsGreeks(legs[..i + 1], quantity) == Plus(LegsGreeks(legs[..i], quantity), Scaled(legs[i], quantity))
  {
    assert legs[..i + 1][..i] == legs[..i];
  }

  method AggregateGreeks(legs: seq<Leg>, quantity: int, underlying: Option<UnderlyingLeg>)
    returns (r: Result<Greeks, Invalid>)
    ensures r.Ok? <==> HasGreeks(legs)
    ensures r.Ok? ==> r.value == PositionGreeks(legs, quantity, underlying)
  {
    var totals := Greeks(0.0, 0.0, 0.0, 0.0);
    for i := 0 to |legs|
      invariant HasGreeks(legs[..i])
      invariant totals == LegsGreeks(legs[..i], quantity)
    {
      var greeks := legs[i].contract.quote.greeks;
      if greeks.None? {
        return Err("Greeks unavailable for " + legs[i].contract.symbol);
      }
      GreeksSnoc(legs, i, quantity);
      totals := Plus(totals, ScaledBy(greeks.value, Scale(legs[i], quantity)));
    }
    assert legs[..|legs|] == legs;
    if underlying.Some? {
      totals := totals.(delta := totals.delta + underlying.value.shares as real);
    }
    return Ok(totals);
  }

  // ----- Building a structure -----

  function Premium(legs: seq<Leg>): real {
    if legs == [] then 0.0 else
    Premium(legs[..|legs| - 1])
    + Sign(legs[|legs| - 1].side) * legs[|legs| - 1].entryPrice * legs[|legs| - 1].ratio as real
  }

  /** The first complaint of `_validate_common`, leg by leg. */
  function CommonError(legs: seq<Leg>, first: Contract): Option<Invalid> {
    if legs == [] then None else
    var leg := legs[0];
    if leg.ratio != 1 then Some("ratio structures are not supported")
    else if leg.contract.underlying != first.underlying then Some("underlying mismatch")
    else if leg.contract.expiration != first.expiration then Some("expiration mismatch")
    else if leg.contract.multiplier != first.multiplier then Some("multiplier mismatch")
    else CommonError(legs[1..], first)
  }

  /** The declared risk of a structure: `max_loss`, `max_profit` and the break-even. */
  datatype Risk = Risk(maxLoss: real, maxProfit: Option<real>, breakEven: real)

  function Outright(kind: StructureType, legs: seq<Leg>, underlying: Option<UnderlyingLeg>,
                    premium: real, scale: real): Result<Risk, Invalid>
    requires legs != [] && kind in {LongCall, LongPut}
  {
    var wanted := if kind == LongCall then Call else Put;
    if !(|legs| == 1 && legs[0].side == Long) then Err("requires one long leg")
    else if legs[0].contract.optionType != wanted then Err("requires one long option of the wanted type")
    else if underlying.Some? then Err("underlying leg is not allowed")
    else if premium <= 0.0 then Err("long option must be a debit")
    else
      var strike := legs[0].contract.strike;
      Ok(if wanted == Call then Risk(Times(premium, scale), None, strike + premium)
         else Risk(Times(premium, scale), Some(Max((strike - premium) * scale, 0.0)), strike - premium))
  }

  /** The long and the short leg of a pair, in either order. */
  predicate IsPair(legs: seq<Leg>) {
    |legs| == 2 && legs[0].side != legs[1].side
  }

  function LongLeg(legs: seq<Leg>): Leg
    requires IsPair(legs)
  {
    if legs[0].side == Long then legs[0] else legs[1]
  }

  function ShortLeg(legs: seq<Leg>): Leg
    requires IsPair(legs)
  {
    if legs[0].side == Short then legs[0] else legs[1]
  }

  function Vertical(kind: StructureType, legs: seq<Leg>, underlying: Option<UnderlyingLeg>,
                    premium: real, scale: real): Result<Risk, Invalid>
    requires kind in {BullCallDebit, BearPutDebit, BullPutCredit, BearCallCredit}
  {
    var wanted := if kind in {BullCallDebit, BearCallCredit} then Call else Put;
    if |legs| != 2 then Err("vertical spread requires exactly two legs")
    else if legs[0].side == legs[1].side then Err("requires long and short legs")
    else if underlying.Some? then Err("underlying leg is not allowed")
    else if legs[0].contract.optionType != wanted || legs[1].contract.optionType != wanted then
      Err("option type mismatch")
    else
      var long := LongLeg(legs).contract.strike;
      var short := ShortLeg(legs).contract.strike;
      var width := Abs(long - short);
      if width <= 0.0 then Err("spread width must be positive")
      else if kind in {BullCallDebit, BearPutDebit} then
        if !(0.0 < premium < width) then Err("debit must be positive and below width")
        else if kind == BullCallDebit then
          if long >= short then Err("bull call strikes invalid")
          else Ok(Risk(premium * scale, Some((width - premium) * scale), long + premium))
        else
          if long <= short then Err("bear put strikes invalid")
          else Ok(Risk(premium * scale, Some((width - premium) * scale), long - premium))
      else
        var credit := -premium;
        if !(0.0 < credit < width) then Err("credit must be positive and below width")
        else if kind == BullPutCredit then
          if short <= long then Err("bull put strikes invalid")
          else Ok(Risk((width - credit) * scale, Some(credit * scale), short - credit))
        else
          if short >= long then Err("bear call strikes invalid")
          else Ok(Risk((width - credit) * scale, Some(credit * scale), short + credit))
  }

  function Protective(kind: StructureType, legs: seq<Leg>, underlying: Option<UnderlyingLeg>,
                      symbol: string, shares: int, premium: real, scale: real): Result<Risk, Invalid>
    requires legs != [] && kind in {ProtectivePut, ProtectivePutSpread}
  {
    if underlying.None? then Err("protective structure requires an underlying leg")
    else if underlying.value.symbol != symbol then Err("underlying symbol mismatch")
    else if underlying.value.shares != shares then Err("protective shares must match contracts")
    else if exists i :: 0 <= i < |legs| && legs[i].contract.optionType != Put then Err("requires put legs")
    else if premium <= 0.0 then Err("protective structure must be a net debit")
    else if kind == ProtectivePut then
      if !(|legs| == 1 && legs[0].side == Long) then Err("requires one long put")
      else Ok(ProtectiveRisk(underlying.value.entryPrice, premium, legs[0].contract.strike, scale))
    else if |legs| != 2 then Err("protective put spread requires two legs")
    else if legs[0].side == legs[1].side then Err("requires long and short puts")
    else if LongLeg(legs).contract.strike <= ShortLeg(legs).contract.strike then
      Err("protective put spread strikes invalid")
    else
      var floor := LongLeg(legs).contract.strike - ShortLeg(legs).contract.strike;
      Ok(ProtectiveRisk(underlying.value.entryPrice, premium, floor, scale))
  }

  function ProtectiveRisk(entry: real, premium: real, floor: real, scale: real): Risk {
    Risk(Max((entry + premium - floor) * scale, 0.0), None, entry + premium)
  }

  function ScaleOf(first: Contract, quantity: int): real {
    first.multiplier as real * quantity as real
  }

  function DeclaredRisk(kind: StructureType, legs: seq<Leg>, quantity: int,
                        underlying: Option<UnderlyingLeg>): Result<Risk, Invalid>
    requires legs != []
  {
    var first := legs[0].contract;
    var premium := Premium(legs);
    var scale := ScaleOf(first, quantity);
    match kind
    case LongCall => Outright(kind, legs, underlying, premium, scale)
    case LongPut => Outright(kind, legs, underlying, premium, scale)
    case ProtectivePut =>
      Protective(kind, legs, underlying, first.underlying, first.multiplier * quantity, premium, scale)
    case ProtectivePutSpread =>
      Protective(kind, legs, underlying, first.underlying, first.multiplier * quantity, premium, scale)
    case _ => Vertical(kind, legs, underlying, premium, scale)
  }

  function BuildStructure(kind: StructureType, legs: seq<Leg>, quantity: int,
                          underlying: Option<UnderlyingLeg>): Result<Structure, Invalid> {
    if legs == [] then Err("at least one option leg is required") else
    var error := CommonError(legs, legs[0].contract);
    if error.Some? then Err(error.value)
    else if quantity < 1 then Err("quantity must be positive")
    else
      match DeclaredRisk(kind, legs, quantity, underlying)
      case Err(e) => Err(e)
      case Ok(risk) =>
        if risk.maxLoss < 0.0 then Err("worst-case loss must be bounded")
        else if risk.maxProfit.Some? && risk.maxProfit.value < 0.0 then Err("max_profit must not be negative")
        else if !HasGreeks(legs) then Err("Greeks unavailable")
        else Ok(Structure(kind, quantity, legs, underlying, Premium(legs), risk.maxLoss, risk.maxProfit,
                          risk.breakEven, PositionGreeks(legs, quantity, underlying)))
  }

  // ----- What a built structure looks like -----

  /** `s` is a structure that the engine built. */
  ghost predicate IsBuilt(s: Structure) {
    BuildStructure(s.structureType, s.legs, s.quantity, s.underlying) == Ok(s)
  }

  lemma BuiltIsBuilt(kind: StructureType, legs: seq<Leg>, quantity: int, underlying: Option<UnderlyingLeg>)
    requires BuildStructure(kind, legs, quantity, underlying).Ok?
    ensures var s := BuildStructure(kind, legs, quantity, underlying).value;
      && IsBuilt(s) && s.structureType == kind && s.legs == legs && s.quantity == quantity && s.underlying == underlying
  {
  }

  predicate IsProtective(kind: StructureType) {
    kind in {ProtectivePut, ProtectivePutSpread}
  }

  lemma {:induction false} CommonErrorMeans(legs: seq<Leg>, first: Contract)
    requires CommonError(legs, first).None?
    ensures forall i :: 0 <= i < |legs| ==>
      legs[i].ratio == 1 && legs[i].contract.multiplier == first.multiplier
    decreases |legs|
  {
    if legs != [] {
      CommonErrorMeans(legs[1..], first);
      forall i | 0 <= i < |legs| ensures legs[i].ratio == 1 && legs[i].contract.multiplier == first.multiplier {
        if i > 0 { assert legs[i] == legs[1..][i - 1]; }
      }
    }
  }

  lemma PremiumOf(legs: seq<Leg>)
    requires forall i :: 0 <= i < |legs| ==> legs[i].ratio == 1
    ensures |legs| == 1 ==> Premium(legs) == Sign(legs[0].side) * legs[0].entryPrice
    ensures IsPair(legs) ==> Premium(legs) == LongLeg(legs).entryPrice - ShortLeg(legs).entryPrice
  {
    if |legs| == 1 { assert legs[..0] == []; }
    if |legs| == 2 { assert legs[..1][..0] == []; }
  }

  lemma ProductOfReals(m: int, q: int)
    ensures (m * q) as real == m as real * q as real
  {
  }

  lemma ProductAtLeastOne(m: PositiveInt, q: PositiveInt)
    ensures m as real * q as real >= 1.0
  {
    assert m * q >= 1;
    ProductOfReals(m, q);
  }

  /** One long leg, or a long and a short one, of equal multiplier and ratio one; shares
      are held exactly by the protective structures, one for each share of the contracts. */
  predicate HasShape(s: Structure) {
    && (if s.structureType in {LongCall, LongPut, ProtectivePut} then |s.legs| == 1 && s.legs[0].side == Long
        else IsPair(s.legs))
    && (forall i :: 0 <= i < |s.legs| ==>
          s.legs[i].ratio == 1 && s.legs[i].contract.multiplier == s.legs[0].contract.multiplier)
    && (forall i :: 0 <= i < |s.legs| ==> s.legs[i].contract.optionType == WantedType(s.structureType))
    && (IsProtective(s.structureType) <==> s.underlying.Some?)
    && s.netPremium == Premium(s.legs)
  }

  /** `k` shares stand behind one unit, and a held share position is exactly that large. */
  predicate HasScale(s: Structure, k: real)
    requires s.legs != []
  {
    && k == ScaleOf(s.legs[0].contract, s.quantity)
    && (s.underlying.Some? ==> s.underlying.value.shares as real == k)
  }

  function WantedType(kind: StructureType): OptionType {
    if kind in {LongCall, BullCallDebit, BearCallCredit} then Call else Put
  }

  function LongStrike(s: Structure): real
    requires HasShape(s)
  {
    if |s.legs| == 1 then s.legs[0].contract.strike else LongLeg(s.legs).contract.strike
  }

  /** Of a pair; otherwise zero, the strike of a short put that never pays. */
  function ShortStrike(s: Structure): real
    requires HasShape(s)
  {
    if |s.legs| == 1 then 0.0 else ShortLeg(s.legs).contract.strike
  }

  function Entry(s: Structure): real {
    if s.underlying.Some? then s.underlying.value.entryPrice else 0.0
  }

  /** The worst case per share: the premium paid or the width less the credit, and for a
      protected holding its cost less the protected amount. Negative when it cannot lose. */
  function UnitLoss(s: Structure): real
    requires HasShape(s)
  {
    match s.structureType
    case BullPutCredit => ShortStrike(s) - LongStrike(s) + s.netPremium
    case BearCallCredit => LongStrike(s) - ShortStrike(s) + s.netPremium
    case ProtectivePut => Entry(s) + s.netPremium - LongStrike(s)
    case ProtectivePutSpread => Entry(s) + s.netPremium - (LongStrike(s) - ShortStrike(s))
    case _ => s.netPremium
  }

  /** The best case per share; None when there is none. */
  function UnitProfit(s: Structure): Option<real>
    requires HasShape(s)
  {
    match s.structureType
    case LongPut => Some(LongStrike(s) - s.netPremium)
    case BullCallDebit => Some(ShortStrike(s) - LongStrike(s) - s.netPremium)
    case BearPutDebit => Some(LongStrike(s) - ShortStrike(s) - s.netPremium)
    case BullPutCredit => Some(-s.netPremium)
    case BearCallCredit => Some(-s.netPremium)
    case _ => None
  }

  /** The order of the strikes and the size of the premium. */
  predicate HasTerms(s: Structure)
    requires HasShape(s)
  {
    var long, short, p := LongStrike(s), ShortStrike(s), s.netPremium;
    match s.structureType
    case BullCallDebit => long < short && 0.0 < p < short - long && s.breakEven == long + p
    case BearPutDebit => short < long && 0.0 < p < long - short && s.breakEven == long - p
    case BullPutCredit => long < short && 0.0 < -p < short - long && s.breakEven == short + p
    case BearCallCredit => short < long && 0.0 < -p < long - short && s.breakEven == short - p
    case LongCall => 0.0 < p && s.breakEven == long + p
    case LongPut => 0.0 < p && s.breakEven == long - p
    case ProtectivePut => 0.0 < p && s.breakEven == Entry(s) + p
    case ProtectivePutSpread => 0.0 < p && short < long && s.breakEven == Entry(s) + p
  }

  function Times(a: real, k: real): real {
    a * k
  }

  function Clipped(bound: real, k: real): real {
    Max(Times(bound, k), 0.0)
  }

  /** The declared figures are the per-share ones times the scale, clipped at zero. */
  predicate Declares(s: Structure, k: real)
    requires HasShape(s)
  {
    && s.maxLoss == Clipped(UnitLoss(s), k)
    && s.maxProfit.Some? == UnitProfit(s).Some?
    && (s.maxProfit.Some? ==> s.maxProfit.value == Clipped(UnitProfit(s).value, k))
  }

  /** All that the proofs about prices need to know of a built structure. */
  predicate HasFigures(s: Structure, k: real)
    requires HasShape(s)
  {
    k >= 1.0 && HasTerms(s) && Declares(s, k)
  }

  lemma OutrightShape(kind: StructureType, legs: seq<Leg>, underlying: Option<UnderlyingLeg>,
                      premium: real, scale: real)
    requires legs != [] && kind in {LongCall, LongPut} && Outright(kind, legs, underlying, premium, scale).Ok?
    ensures |legs| == 1 && legs[0].side == Long && legs[0].contract.optionType == WantedType(kind) && underlying.None?
  {
  }

  lemma VerticalShape(kind: StructureType, legs: seq<Leg>, underlying: Option<UnderlyingLeg>,
                      premium: real, scale: real)
    requires kind in {BullCallDebit, BearPutDebit, BullPutCredit, BearCallCredit}
    requires Vertical(kind, legs, underlying, premium, scale).Ok?
    ensures IsPair(legs) && underlying.None?
    ensures legs[0].contract.optionType == WantedType(kind) && legs[1].contract.optionType == WantedType(kind)
  {
  }

  lemma ProtectiveShape(kind: StructureType, legs: seq<Leg>, underlying: Option<UnderlyingLeg>, symbol: string,
                        shares: int, premium: real, scale: real)
    requires legs != [] && IsProtective(kind)
    requires Protective(kind, legs, underlying, symbol, shares, premium, scale).Ok?
    ensures underlying.Some? && underlying.value.shares == shares
    ensures if kind == ProtectivePut then |legs| == 1 && legs[0].side == Long else IsPair(legs)
    ensures forall i :: 0 <= i < |legs| ==> legs[i].contract.optionType == Put
  {
  }

  /** The parts of a built structure that do not depend on its type. */
  lemma BuiltParts(s: Structure)
    requires IsBuilt(s)
    ensures s.legs != [] && s.netPremium == Premium(s.legs)
    ensures CommonError(s.legs, s.legs[0].contract).None?
    ensures DeclaredRisk(s.structureType, s.legs, s.quantity, s.underlying)
         == Ok(Risk(s.maxLoss, s.maxProfit, s.breakEven))
  {
  }

  /** What its type says of the legs and of the shares. */
  lemma DeclaredShape(kind: StructureType, legs: seq<Leg>, quantity: int, underlying: Option<UnderlyingLeg>)
    requires legs != [] && DeclaredRisk(kind, legs, quantity, underlying).Ok?
    ensures if kind in {LongCall, LongPut, ProtectivePut} then |legs| == 1 && legs[0].side == Long else IsPair(legs)
    ensures forall i :: 0 <= i < |legs| ==> legs[i].contract.optionType == WantedType(kind)
    ensures IsProtective(kind) ==>
      underlying.Some? && underlying.value.shares == legs[0].contract.multiplier * quantity
    ensures !IsProtective(kind) ==> underlying.None?
  {
    var first := legs[0].contract;
    var premium, scale := Premium(legs), ScaleOf(first, quantity);
    if kind in {LongCall, LongPut} {
      OutrightShape(kind, legs, underlying, premium, scale);
    } else if IsProtective(kind) {
      ProtectiveShape(kind, legs, underlying, first.underlying, first.multiplier * quantity, premium, scale);
    } else {
      VerticalShape(kind, legs, underlying, premium, scale);
    }
  }

  lemma BuiltShape(s: Structure) returns (k: real)
    requires s.legs != [] && s.netPremium == Premium(s.legs)
    requires CommonError(s.legs, s.legs[0].contract).None?
    requires DeclaredRisk(s.structureType, s.legs, s.quantity, s.underlying).Ok?
    ensures HasShape(s) && HasScale(s, k) && k >= 1.0
  {
    CommonErrorMeans(s.legs, s.legs[0].contract);
    DeclaredShape(s.structureType, s.legs, s.quantity, s.underlying);
    ProductAtLeastOne(s.legs[0].contract.multiplier, s.quantity);
    ProductOfReals(s.legs[0].contract.multiplier, s.quantity);
    k := ScaleOf(s.legs[0].contract, s.quantity);
  }

  lemma OutrightFigures(s: Structure, k: real)
    requires HasShape(s) && s.structureType in {LongCall, LongPut} && k >= 1.0
    requires Outright(s.structureType, s.legs, s.underlying, s.netPremium, k)
          == Ok(Risk(s.maxLoss, s.maxProfit, s.breakEven))
    ensures HasFigures(s, k)
  {
    ScaleStrict(0.0, s.netPremium, k);
  }

  lemma DebitFigures(s: Structure, k: real)
    requires HasShape(s) && s.structureType in {BullCallDebit, BearPutDebit} && k >= 1.0
    requires Vertical(s.structureType, s.legs, s.underlying, s.netPremium, k)
          == Ok(Risk(s.maxLoss, s.maxProfit, s.breakEven))
    ensures HasFigures(s, k)
  {
    ScaleStrict(0.0, UnitLoss(s), k);
    ScaleStrict(0.0, UnitProfit(s).value, k);
  }

  lemma CreditFigures(s: Structure, k: real)
    requires HasShape(s) && s.structureType in {BullPutCredit, BearCallCredit} && k >= 1.0
    requires Vertical(s.structureType, s.legs, s.underlying, s.netPremium, k)
          == Ok(Risk(s.maxLoss, s.maxProfit, s.breakEven))
    ensures HasFigures(s, k)
  {
    ScaleStrict(0.0, UnitLoss(s), k);
    ScaleStrict(0.0, UnitProfit(s).value, k);
  }

  lemma ProtectiveFigures(s: Structure, shares: int, k: real)
    requires HasShape(s) && IsProtective(s.structureType) && k >= 1.0
    requires Protective(s.structureType, s.legs, s.underlying, s.legs[0].contract.underlying, shares, s.netPremium, k)
          == Ok(Risk(s.maxLoss, s.maxProfit, s.breakEven))
    ensures HasFigures(s, k)
  {
  }

  lemma Built(s: Structure) returns (k: real)
    requires IsBuilt(s)
    ensures HasShape(s) && HasScale(s, k) && HasFigures(s, k)
  {
    BuiltParts(s);
    k := BuiltShape(s);
    assert ScaleOf(s.legs[0].contract, s.quantity) == k && Premium(s.legs) == s.netPremium;
    if s.structureType in {LongCall, LongPut} { OutrightFigures(s, k); }
    else if IsProtective(s.structureType) { ProtectiveFigures(s, s.legs[0].contract.multiplier * s.quantity, k); }
    else if s.structureType in {BullCallDebit, BearPutDebit} { DebitFigures(s, k); }
    else { CreditFigures(s, k); }
  }

  // ----- Scaling -----

  lemma ScaleStrict(a: real, b: real, k: real)
    requires k >= 1.0
    ensures a < b <==> Times(a, k) < Times(b, k)
    ensures a == b <==> Times(a, k) == Times(b, k)
  {
  }

  /** A per-share bound, clipped at zero, bounds the scaled payoff. */
  lemma ClippedBounds(u: real, bound: real, k: real)
    requires k >= 1.0
    ensures -bound <= u ==> Times(u, k) >= -Clipped(bound, k)
    ensures u <= bound ==> Times(u, k) <= Clipped(bound, k)
  {
    ScaleStrict(-bound, u, k);
    ScaleStrict(u, bound, k);
  }

  /** The clipped figure is met exactly by a bound that is not negative. */
  lemma ClippedIsMet(u: real, bound: real, k: real)
    requires k >= 1.0
    ensures bound >= 0.0 && u == bound ==> Times(u, k) == Clipped(bound, k)
    ensures bound >= 0.0 && u == -bound ==> Times(u, k) == -Clipped(bound, k)
    ensures bound < 0.0 && u <= bound ==> Times(u, k) < Clipped(bound, k)
    ensures bound < 0.0 && -bound <= u ==> Times(u, k) > -Clipped(bound, k)
  {
    ScaleStrict(bound, 0.0, k);
    ScaleStrict(u, 0.0, k);
  }

  // ----- The payoff of one share -----

  /** Payoff per share: the intrinsic values, less the premium, plus the move of a held share. */
  function Unit(s: Structure, price: real): real
    requires HasShape(s)
  {
    OptionsUnit(s, price) + if s.underlying.Some? then price - s.underlying.value.entryPrice else 0.0
  }

  function OptionsUnit(s: Structure, price: real): real
    requires HasShape(s)
  {
    (if |s.legs| == 1 then Intrinsic(s.legs[0].contract, price)
     else Intrinsic(LongLeg(s.legs).contract, price) - Intrinsic(ShortLeg(s.legs).contract, price))
    - s.netPremium
  }

  lemma LegFactors(leg: Leg, quantity: int, price: real, k: real)
    requires leg.ratio == 1 && k == leg.contract.multiplier as real * quantity as real
    ensures LegPayoff(leg, quantity, price)
         == Sign(leg.side) * (Intrinsic(leg.contract, price) - leg.entryPrice) * k
  {
  }

  lemma TwoFactors(a: real, b: real, k: real)
    ensures a * k + b * k == (a + b) * k
  {
  }

  lemma LegsOfOne(legs: seq<Leg>, quantity: int, price: real)
    requires |legs| == 1
    ensures LegsPayoff(legs, quantity, price) == LegPayoff(legs[0], quantity, price)
    ensures Premium(legs) == Sign(legs[0].side) * legs[0].entryPrice * legs[0].ratio as real
  {
    assert legs[..0] == [];
  }

  lemma LegsOfTwo(legs: seq<Leg>, quantity: int, price: real)
    requires |legs| == 2
    ensures LegsPayoff(legs, quantity, price)
         == LegPayoff(legs[0], quantity, price) + LegPayoff(legs[1], quantity, price)
    ensures Premium(legs) == Sign(legs[0].side) * legs[0].entryPrice * legs[0].ratio as real
                           + Sign(legs[1].side) * legs[1].entryPrice * legs[1].ratio as real
  {
    LegsOfOne(legs[..1], quantity, price);
    assert legs[..1][0] == legs[0];
  }

  lemma LegsPayoffFactors(s: Structure, price: real, k: real)
    requires HasShape(s) && HasScale(s, k)
    ensures LegsPayoff(s.legs, s.quantity, price) == Times(OptionsUnit(s, price), k)
  {
    LegFactors(s.legs[0], s.quantity, price, k);
    var a := Sign(s.legs[0].side) * (Intrinsic(s.legs[0].contract, price) - s.legs[0].entryPrice);
    if |s.legs| == 1 {
      LegsOfOne(s.legs, s.quantity, price);
      assert a == OptionsUnit(s, price);
    } else {
      LegsOfTwo(s.legs, s.quantity, price);
      LegFactors(s.legs[1], s.quantity, price, k);
      var b := Sign(s.legs[1].side) * (Intrinsic(s.legs[1].contract, price) - s.legs[1].entryPrice);
      assert a + b == OptionsUnit(s, price);
      TwoFactors(a, b, k);
    }
  }

  /** The loop over the legs computes the per-share payoff times the scale. */
  lemma PayoffFactors(s: Structure, price: real, k: real)
    requires HasShape(s) && HasScale(s, k)
    ensures Payoff(s, price) == Times(Unit(s, price), k)
  {
    LegsPayoffFactors(s, price, k);
    if s.underlying.Some? {
      TwoFactors(OptionsUnit(s, price), price - s.underlying.value.entryPrice, k);
    }
  }

  function WorstPrice(s: Structure): real
    requires HasShape(s)
  {
    if s.structureType in {LongPut, BearPutDebit, BearCallCredit} then LongStrike(s) else 0.0
  }

  function BestPrice(s: Structure): real
    requires HasShape(s)
  {
    if s.structureType in {BullCallDebit, BullPutCredit} then ShortStrike(s) else 0.0
  }

  lemma UnitBounds(s: Structure, price: real)
    requires HasShape(s) && HasTerms(s) && price >= 0.0
    ensures -UnitLoss(s) <= Unit(s, price)
    ensures UnitProfit(s).Some? ==> Unit(s, price) <= UnitProfit(s).value
  {
  }

  lemma UnitExtremes(s: Structure)
    requires HasShape(s) && HasTerms(s)
    ensures Unit(s, WorstPrice(s)) == -UnitLoss(s)
    ensures UnitProfit(s).Some? ==> Unit(s, BestPrice(s)) == UnitProfit(s).value
  {
  }

  // ----- Main results -----

  /** For all eight structures, every quantity, multiplier and leg order, and every price,
      the payoff is at least minus the declared maximum loss, and at most the declared
      maximum profit when there is one. */
  lemma PayoffIsBounded(s: Structure, price: real)
    requires IsBuilt(s) && price >= 0.0
    ensures Payoff(s, price) >= -s.maxLoss
    ensures s.maxProfit.Some? ==> Payoff(s, price) <= s.maxProfit.value
  {
    var k := Built(s);
    PayoffFactors(s, price, k);
    var loss, profit := FiguresAt(s, price, k);
    BoundedByFigures(Unit(s, price), loss, profit, k, s.maxLoss, s.maxProfit);
  }

  lemma FiguresAt(s: Structure, price: real, k: real) returns (loss: real, profit: Option<real>)
    requires HasShape(s) && HasFigures(s, k) && price >= 0.0
    ensures -loss <= Unit(s, price) && (profit.Some? ==> Unit(s, price) <= profit.value)
    ensures s.maxLoss == Clipped(loss, k)
    ensures s.maxProfit == if profit.Some? then Some(Clipped(profit.value, k)) else None
  {
    UnitBounds(s, price);
    loss, profit := UnitLoss(s), UnitProfit(s);
  }

  lemma BoundedByFigures(u: real, loss: real, profit: Option<real>, k: real, maxLoss: real, maxProfit: Option<real>)
    requires k >= 1.0 && -loss <= u && (profit.Some? ==> u <= profit.value)
    requires maxLoss == Clipped(loss, k)
    requires maxProfit == if profit.Some? then Some(Clipped(profit.value, k)) else None
    ensures Times(u, k) >= -maxLoss
    ensures maxProfit.Some? ==> Times(u, k) <= maxProfit.value
  {
    ClippedBounds(u, loss, k);
    if profit.Some? { ClippedBounds(u, profit.value, k); }
  }

  predicate AttainsLoss(s: Structure, price: real) {
    price >= 0.0 && Payoff(s, price) == -s.maxLoss
  }

  predicate AttainsProfit(s: Structure, price: real)
    requires s.maxProfit.Some?
  {
    price >= 0.0 && Payoff(s, price) == s.maxProfit.value
  }

  /** The declared maximum loss is attained exactly when it was not clipped at zero, which
      can happen only to a protective structure that cannot lose. */
  lemma MaxLossIsExact(s: Structure)
    requires IsBuilt(s)
    ensures HasShape(s)
    ensures (exists price :: AttainsLoss(s, price)) <==> UnitLoss(s) >= 0.0
    ensures !IsProtective(s.structureType) ==> UnitLoss(s) > 0.0
  {
    var k := Built(s);
    LossAtWorstPrice(s, k);
    forall price ensures UnitLoss(s) < 0.0 ==> !AttainsLoss(s, price) {
      NoLossWhenClipped(s, price, k);
    }
  }

  lemma LossAtWorstPrice(s: Structure, k: real)
    requires HasShape(s) && HasScale(s, k) && HasFigures(s, k)
    ensures UnitLoss(s) >= 0.0 ==> AttainsLoss(s, WorstPrice(s))
  {
    var price := WorstPrice(s);
    var u, loss := Unit(s, price), UnitLoss(s);
    PayoffFactors(s, price, k);
    assert u == -loss by { UnitExtremes(s); }
    ClippedIsMet(u, loss, k);
    assert price >= 0.0;
  }

  lemma NoLossWhenClipped(s: Structure, price: real, k: real)
    requires HasShape(s) && HasScale(s, k) && HasFigures(s, k)
    ensures UnitLoss(s) < 0.0 ==> !AttainsLoss(s, price)
  {
    if price >= 0.0 {
      PayoffFactors(s, price, k);
      UnitBounds(s, price);
      ClippedIsMet(Unit(s, price), UnitLoss(s), k);
    }
  }

  /** So is the maximum profit, which only a long put dearer than its strike clips. */
  lemma MaxProfitIsExact(s: Structure)
    requires IsBuilt(s) && s.maxProfit.Some?
    ensures HasShape(s)
    ensures (exists price :: AttainsProfit(s, price))
      <==> !(s.structureType == LongPut && s.netPremium > LongStrike(s))
  {
    var k := Built(s);
    ProfitAtBestPrice(s, k);
    forall price ensures UnitProfit(s).value < 0.0 ==> !AttainsProfit(s, price) {
      NoProfitWhenClipped(s, price, k);
    }
  }

  lemma ProfitAtBestPrice(s: Structure, k: real)
    requires HasShape(s) && HasScale(s, k) && HasFigures(s, k) && s.maxProfit.Some?
    ensures UnitProfit(s).value >= 0.0 ==> AttainsProfit(s, BestPrice(s))
  {
    PayoffFactors(s, BestPrice(s), k);
    UnitExtremes(s);
    ClippedIsMet(Unit(s, BestPrice(s)), UnitProfit(s).value, k);
  }

  lemma NoProfitWhenClipped(s: Structure, price: real, k: real)
    requires HasShape(s) && HasScale(s, k) && HasFigures(s, k) && s.maxProfit.Some?
    ensures UnitProfit(s).value < 0.0 ==> !AttainsProfit(s, price)
  {
    if price >= 0.0 {
      PayoffFactors(s, price, k);
      UnitBounds(s, price);
      ClippedIsMet(Unit(s, price), UnitProfit(s).value, k);
    }
  }

  /** Without a declared maximum profit the payoff exceeds every bound. */
  lemma ProfitIsUnbounded(s: Structure, bound: real) returns (price: real)
    requires IsBuilt(s) && s.maxProfit.None?
    ensures price >= 0.0 && Payoff(s, price) > bound
  {
    var k := Built(s);
    var target := Abs(bound) + 1.0;
    price := LongStrike(s) + Entry(s) + s.netPremium + target;
    PayoffFactors(s, price, k);
    UnitAtHighPrice(s, target);
    GrowsByScale(Unit(s, price), target, k);
  }

  lemma UnitAtHighPrice(s: Structure, target: real)
    requires HasShape(s) && HasTerms(s) && UnitProfit(s).None? && target >= 0.0
    ensures Unit(s, LongStrike(s) + Entry(s) + s.netPremium + target) >= target
  {
  }

  lemma GrowsByScale(u: real, target: real, k: real)
    requires u >= target >= 1.0 && k >= 1.0
    ensures Times(u, k) >= target
  {
  }

  predicate GainsAbove(kind: StructureType) {
    kind in {LongCall, BullCallDebit, BullPutCredit}
  }

  predicate GainsBelow(kind: StructureType) {
    kind in {LongPut, BearPutDebit, BearCallCredit}
  }

  lemma UnitDivides(s: Structure, price: real)
    requires HasShape(s) && HasTerms(s) && price >= 0.0
    ensures !IsProtective(s.structureType) ==> (Unit(s, price) == 0.0 <==> price == s.breakEven)
    ensures GainsAbove(s.structureType) ==> (Unit(s, price) > 0.0 <==> price > s.breakEven)
    ensures GainsBelow(s.structureType) ==> (Unit(s, price) > 0.0 <==> price < s.breakEven)
    ensures IsProtective(s.structureType) && s.breakEven >= LongStrike(s) ==>
      (Unit(s, price) > 0.0 <==> price > s.breakEven)
    ensures IsProtective(s.structureType) && price == s.breakEven ==>
      (Unit(s, price) == 0.0 <==> price >= LongStrike(s)) && (Unit(s, price) > 0.0 <==> price < LongStrike(s))
  {
  }

  /** The declared break-even divides profit from loss strictly, for every price: a long
      call, a bull call and a bull put gain above it and lose below, the others the reverse.
      Only a long put dearer than its strike has no break-even among the prices. */
  lemma BreakEvenDivides(s: Structure, price: real)
    requires IsBuilt(s) && price >= 0.0 && !IsProtective(s.structureType)
    ensures Payoff(s, price) == 0.0 <==> price == s.breakEven
    ensures GainsAbove(s.structureType) ==> (Payoff(s, price) > 0.0 <==> price > s.breakEven)
    ensures GainsBelow(s.structureType) ==> (Payoff(s, price) > 0.0 <==> price < s.breakEven)
    ensures HasShape(s)
    ensures s.breakEven < 0.0 <==> s.structureType == LongPut && s.netPremium > LongStrike(s)
  {
    var k := Built(s);
    PayoffFactors(s, price, k);
    UnitDivides(s, price);
    ScaleStrict(0.0, Unit(s, price), k);
  }

  /** A protective structure is at zero on its declared break-even exactly when that is not
      below the long strike; below it, it gains even there. */
  lemma ProtectiveBreakEven(s: Structure)
    requires IsBuilt(s) && IsProtective(s.structureType)
    ensures HasShape(s) && s.breakEven >= 0.0
    ensures Payoff(s, s.breakEven) == 0.0 <==> s.breakEven >= LongStrike(s)
    ensures Payoff(s, s.breakEven) > 0.0 <==> s.breakEven < LongStrike(s)
  {
    var k := Built(s);
    PayoffFactors(s, s.breakEven, k);
    UnitDivides(s, s.breakEven);
    ScaleStrict(0.0, Unit(s, s.breakEven), k);
  }

  /** A protective structure whose break-even is not below its long strike gains at
      precisely the prices above it. */
  lemma ProtectiveGainsAboveBreakEven(s: Structure, price: real)
    requires IsBuilt(s) && IsProtective(s.structureType) && price >= 0.0
    ensures HasShape(s)
    ensures s.breakEven >= LongStrike(s) ==> (Payoff(s, price) > 0.0 <==> price > s.breakEven)
  {
    var k := Built(s);
    PayoffFactors(s, price, k);
    UnitDivides(s, price);
    ScaleStrict(0.0, Unit(s, price), k);
  }

  // ----- The Greeks of a built structure -----

  /** A price times the shares behind a leg, negative when short. */
  lemma AmountMeans(leg: Leg, price: real, quantity: int)
    ensures Amount(leg, price, quantity) ==
      (if leg.side == Long then 1.0 else -1.0) * (leg.ratio * leg.contract.multiplier * quantity) as real * price
  {
    var r, m, q := leg.ratio as real, leg.contract.multiplier as real, quantity as real;
    RealsOfProduct(leg.ratio, leg.contract.multiplier, quantity);
    SignedProduct(Sign(leg.side) * price, r, m, q);
    MovePrice(Sign(leg.side), price, r * m * q);
  }

  lemma MovePrice(x: real, price: real, n: real)
    ensures (x * price) * n == x * n * price
  {
  }

  /** The weight of a leg: its ratio, the quantity and the multiplier, negative when short. */
  lemma ScaleMeans(leg: Leg, quantity: int)
    ensures Scale(leg, quantity) ==
      (if leg.side == Long then 1.0 else -1.0) * (leg.ratio * quantity * leg.contract.multiplier) as real
  {
    var r, q, m := leg.ratio as real, quantity as real, leg.contract.multiplier as real;
    RealsOfProduct(leg.ratio, quantity, leg.contract.multiplier);
    SignedProduct(Sign(leg.side), r, q, m);
  }

  lemma RealsOfProduct(a: int, b: int, c: int)
    ensures (a * b * c) as real == a as real * b as real * c as real
  {
    ProductOfReals(a, b);
    ProductOfReals(a * b, c);
  }

  lemma SignedProduct(x: real, r: real, q: real, m: real)
    ensures x * r * q * m == x * (r * q * m)
  {
  }

  lemma UnitScale(leg: Leg, quantity: int, k: real)
    requires leg.ratio == 1 && k == ScaleOf(leg.contract, quantity)
    ensures Scale(leg, quantity) == if leg.side == Long then k else -k
  {
    ScaleMeans(leg, quantity);
    ProductOfReals(quantity, leg.contract.multiplier);
    SwapFactors(quantity as real, leg.contract.multiplier as real);
  }

  lemma SwapFactors(a: real, b: real)
    ensures a * b == b * a
  {
  }

  /** One component of the Greeks of a pair. */
  lemma MixedComponent(a: real, b: real, k: real)
    ensures a * k + b * -k == k * (a - b) && b * -k + a * k == k * (a - b)
  {
  }

  /** `k` times the Greeks of a long leg less those of a short one. */
  function NetGreeks(long: Greeks, short: Greeks, k: real): Greeks {
    Greeks(k * (long.delta - short.delta), k * (long.gamma - short.gamma),
           k * (long.theta - short.theta), k * (long.vega - short.vega))
  }

  lemma PairSum(a: Greeks, b: Greeks, k: real)
    ensures Plus(ScaledBy(a, k), ScaledBy(b, -k)) == NetGreeks(a, b, k)
    ensures Plus(ScaledBy(b, -k), ScaledBy(a, k)) == NetGreeks(a, b, k)
  {
    MixedComponent(a.delta, b.delta, k);
    MixedComponent(a.gamma, b.gamma, k);
    MixedComponent(a.theta, b.theta, k);
    MixedComponent(a.vega, b.vega, k);
  }

  lemma SingleSum(a: Greeks, k: real)
    ensures ScaledBy(a, k) == NetGreeks(a, NO_GREEKS, k)
  {
    MixedComponent(a.delta, 0.0, k);
    MixedComponent(a.gamma, 0.0, k);
    MixedComponent(a.theta, 0.0, k);
    MixedComponent(a.vega, 0.0, k);
  }

  const NO_GREEKS := Greeks(0.0, 0.0, 0.0, 0.0)

  lemma LegsGreeksOfOne(legs: seq<Leg>, quantity: int, x: Greeks)
    requires |legs| == 1 && HasGreeks(legs) && x == Scaled(legs[0], quantity)
    ensures LegsGreeks(legs, quantity) == x
  {
    var none: seq<Leg> := [];
    assert legs[..|legs| - 1] == none && LegsGreeks(none, quantity) == NO_GREEKS;
    PlusNothing(x);
  }

  lemma LegsGreeksOfTwo(legs: seq<Leg>, quantity: int, x: Greeks, y: Greeks)
    requires |legs| == 2 && HasGreeks(legs) && x == Scaled(legs[0], quantity) && y == Scaled(legs[1], quantity)
    ensures LegsGreeks(legs, quantity) == Plus(x, y)
  {
    var front := legs[..1];
    LegsGreeksOfOne(front, quantity, x);
    assert legs[..|legs| - 1] == front;
  }

  lemma PlusNothing(x: Greeks)
    ensures Plus(NO_GREEKS, x) == x
  {
  }

  lemma BuiltGreeks(s: Structure)
    requires IsBuilt(s)
    ensures HasGreeks(s.legs) && s.greeks == PositionGreeks(s.legs, s.quantity, s.underlying)
  {
  }

  lemma GreeksOfOne(legs: seq<Leg>, quantity: int, k: real)
    requires |legs| == 1 && HasGreeks(legs) && legs[0].side == Long && legs[0].ratio == 1
    requires k == ScaleOf(legs[0].contract, quantity)
    ensures LegsGreeks(legs, quantity) == NetGreeks(legs[0].contract.quote.greeks.value, NO_GREEKS, k)
  {
    var g := legs[0].contract.quote.greeks.value;
    UnitScale(legs[0], quantity, k);
    SingleSum(g, k);
    LegsGreeksOfOne(legs, quantity, ScaledBy(g, k));
  }

  lemma GreeksOfPair(legs: seq<Leg>, quantity: int, k: real)
    requires IsPair(legs) && HasGreeks(legs) && legs[0].ratio == 1 && legs[1].ratio == 1
    requires k == ScaleOf(legs[0].contract, quantity) == ScaleOf(legs[1].contract, quantity)
    ensures var long := LongLeg(legs).contract.quote.greeks.value;
      var short := ShortLeg(legs).contract.quote.greeks.value;
      LegsGreeks(legs, quantity) == NetGreeks(long, short, k)
  {
    var first, second := legs[0].contract.quote.greeks.value, legs[1].contract.quote.greeks.value;
    UnitScale(legs[0], quantity, k);
    UnitScale(legs[1], quantity, k);
    var x, y := Scaled(legs[0], quantity), Scaled(legs[1], quantity);
    LegsGreeksOfTwo(legs, quantity, x, y);
    if legs[0].side == Long { PairSum(first, second, k); } else { PairSum(second, first, k); }
  }

  /** The `k` shares of a held position add as much delta. */
  function WithShares(g: Greeks, underlying: Option<UnderlyingLeg>, k: real): Greeks {
    if underlying.Some? then g.(delta := g.delta + k) else g
  }

  lemma PositionOfOne(legs: seq<Leg>, quantity: int, underlying: Option<UnderlyingLeg>, k: real)
    requires |legs| == 1 && HasGreeks(legs) && legs[0].side == Long && legs[0].ratio == 1
    requires k == ScaleOf(legs[0].contract, quantity) && (underlying.Some? ==> underlying.value.shares as real == k)
    ensures PositionGreeks(legs, quantity, underlying) ==
      WithShares(NetGreeks(legs[0].contract.quote.greeks.value, NO_GREEKS, k), underlying, k)
  {
    GreeksOfOne(legs, quantity, k);
  }

  lemma PositionOfPair(legs: seq<Leg>, quantity: int, underlying: Option<UnderlyingLeg>, k: real)
    requires IsPair(legs) && HasGreeks(legs) && legs[0].ratio == 1 && legs[1].ratio == 1
    requires k == ScaleOf(legs[0].contract, quantity) == ScaleOf(legs[1].contract, quantity)
    requires underlying.Some? ==> underlying.value.shares as real == k
    ensures PositionGreeks(legs, quantity, underlying) ==
      WithShares(NetGreeks(LongLeg(legs).contract.quote.greeks.value, ShortLeg(legs).contract.quote.greeks.value, k),
                 underlying, k)
  {
    GreeksOfPair(legs, quantity, k);
  }

  /** The shares behind a built structure, and what they are needed for here. */
  lemma BuiltScale(s: Structure) returns (k: real)
    requires IsBuilt(s)
    ensures s.legs != [] && k == s.legs[0].contract.multiplier as real * s.quantity as real
    ensures forall i | 0 <= i < |s.legs| :: s.legs[i].ratio == 1 && ScaleOf(s.legs[i].contract, s.quantity) == k
    ensures |s.legs| == 1 ==> s.legs[0].side == Long
    ensures |s.legs| != 1 ==> IsPair(s.legs)
    ensures s.underlying.Some? ==> s.underlying.value.shares as real == k
    ensures s.underlying.Some? <==> s.structureType == ProtectivePut || s.structureType == ProtectivePutSpread
    ensures HasGreeks(s.legs) && s.greeks == PositionGreeks(s.legs, s.quantity, s.underlying)
  {
    k := Built(s);
    BuiltGreeks(s);
  }

  /** The Greeks of a structure built from one leg: `k` times those of the leg, where `k` is
      the number of shares behind it; a protective put adds the delta of the `k` shares held. */
  lemma GreeksOfBuiltSingle(s: Structure) returns (k: real)
    requires IsBuilt(s) && |s.legs| == 1
    ensures k == s.legs[0].contract.multiplier as real * s.quantity as real
    ensures s.legs[0].contract.quote.greeks.Some?
    ensures var net := NetGreeks(s.legs[0].contract.quote.greeks.value, NO_GREEKS, k);
      s.greeks == if s.structureType == ProtectivePut then net.(delta := net.delta + k) else net
  {
    k := BuiltScale(s);
    SingleIsProtectivePut(s);
    PositionOfOne(s.legs, s.quantity, s.underlying, k);
  }

  lemma SingleIsProtectivePut(s: Structure)
    requires IsBuilt(s) && |s.legs| == 1
    ensures s.structureType != ProtectivePutSpread
  {
    var k := Built(s);
  }

  lemma PairIsProtectiveSpread(s: Structure)
    requires IsBuilt(s) && |s.legs| == 2
    ensures s.structureType != ProtectivePut
  {
    var k := Built(s);
  }

  /** And from two: `k` times those of the long leg less those of the short one. */
  lemma GreeksOfBuiltPair(s: Structure) returns (k: real)
    requires IsBuilt(s) && |s.legs| == 2
    ensures k == s.legs[0].contract.multiplier as real * s.quantity as real
    ensures IsPair(s.legs) && HasGreeks(s.legs)
    ensures var long := LongLeg(s.legs).contract.quote.greeks.value;
      var short := ShortLeg(s.legs).contract.quote.greeks.value;
      var net := NetGreeks(long, short, k);
      s.greeks == if s.structureType == ProtectivePutSpread then net.(delta := net.delta + k) else net
  {
    k := BuiltScale(s);
    PairIsProtectiveSpread(s);
    PositionOfPair(s.legs, s.quantity, s.underlying, k);
  }

  // ----- When a structure is built -----

  lemma OneLegIsCommon(legs: seq<Leg>)
    requires |legs| == 1
    ensures CommonError(legs, legs[0].contract).None? <==> legs[0].ratio == 1
  {
    assert legs[1..] == [];
  }

  lemma TwoLegsAreCommon(legs: seq<Leg>)
    requires |legs| == 2
    ensures CommonError(legs, legs[0].contract).None? <==>
      legs[0].ratio == 1 && legs[1].ratio == 1 && AlikeContracts(legs)
  {
    assert legs[1..] == [legs[1]] && legs[1..][1..] == [];
    assert CommonError([legs[1]], legs[0].contract).None? <==> legs[1].ratio == 1 && AlikeContracts(legs);
  }

  /** Both on one underlying and expiration, with one multiplier. */
  predicate AlikeContracts(legs: seq<Leg>)
    requires |legs| == 2
  {
    var a, b := legs[0].contract, legs[1].contract;
    a.underlying == b.underlying && a.expiration == b.expiration && a.multiplier == b.multiplier
  }

  /** A long option is built exactly from one long leg of its type, of ratio one, at a
      positive price, without shares, with Greeks and for a positive quantity. */
  lemma OutrightIsBuiltIff(kind: StructureType, legs: seq<Leg>, quantity: int, underlying: Option<UnderlyingLeg>)
    requires kind == LongCall || kind == LongPut
    ensures BuildStructure(kind, legs, quantity, underlying).Ok? <==>
      && |legs| == 1 && legs[0].side == Long && legs[0].ratio == 1
      && legs[0].contract.optionType == (if kind == LongCall then Call else Put)
      && underlying.None? && quantity >= 1 && legs[0].entryPrice > 0.0
      && legs[0].contract.quote.greeks.Some?
  {
    if |legs| == 1 && legs[0].ratio == 1 && quantity >= 1 {
      OneLegIsCommon(legs);
      PremiumOf(legs);
      ProductAtLeastOne(legs[0].contract.multiplier, quantity);
      ScaleStrict(0.0, Premium(legs), ScaleOf(legs[0].contract, quantity));
    } else if |legs| == 1 {
      OneLegIsCommon(legs);
    }
  }

  /** The order of the strikes and the size of the premium that each vertical needs. */
  predicate VerticalTerms(kind: StructureType, long: real, short: real, premium: real) {
    match kind
    case BullCallDebit => long < short && 0.0 < premium < short - long
    case BearPutDebit => long > short && 0.0 < premium < long - short
    case BullPutCredit => long < short && 0.0 < -premium < short - long
    case BearCallCredit => long > short && 0.0 < -premium < long - short
    case _ => false
  }

  /** A vertical is built exactly from a long and a short leg of its type, in either order,
      alike and of ratio one, with Greeks and without shares, for a positive quantity, when
      the strikes stand in its order and the net price is strictly within their width. */
  lemma VerticalIsBuiltIff(kind: StructureType, legs: seq<Leg>, quantity: int, underlying: Option<UnderlyingLeg>)
    requires kind in {BullCallDebit, BearPutDebit, BullPutCredit, BearCallCredit}
    ensures BuildStructure(kind, legs, quantity, underlying).Ok? <==>
      && IsPair(legs) && legs[0].ratio == 1 && legs[1].ratio == 1 && AlikeContracts(legs)
      && (forall i | 0 <= i < 2 :: legs[i].contract.optionType == WantedType(kind))
      && (forall i | 0 <= i < 2 :: legs[i].contract.quote.greeks.Some?)
      && underlying.None? && quantity >= 1
      && VerticalTerms(kind, LongLeg(legs).contract.strike, ShortLeg(legs).contract.strike,
                       LongLeg(legs).entryPrice - ShortLeg(legs).entryPrice)
  {
    if |legs| == 2 {
      TwoLegsAreCommon(legs);
      if IsPair(legs) && legs[0].ratio == 1 && legs[1].ratio == 1 && quantity >= 1 {
        PremiumOf(legs);
        ProductAtLeastOne(legs[0].contract.multiplier, quantity);
        VerticalRiskIff(kind, legs, underlying, Premium(legs), ScaleOf(legs[0].contract, quantity));
      }
    }
  }

  lemma VerticalRiskIff(kind: StructureType, legs: seq<Leg>, underlying: Option<UnderlyingLeg>, premium: real, k: real)
    requires kind in {BullCallDebit, BearPutDebit, BullPutCredit, BearCallCredit} && IsPair(legs) && k >= 1.0
    ensures var r := Vertical(kind, legs, underlying, premium, k);
      && (r.Ok? <==>
            && (forall i | 0 <= i < 2 :: legs[i].contract.optionType == WantedType(kind)) && underlying.None?
            && VerticalTerms(kind, LongLeg(legs).contract.strike, ShortLeg(legs).contract.strike, premium))
      && (r.Ok? ==> r.value.maxLoss >= 0.0 && r.value.maxProfit.Some? && r.value.maxProfit.value >= 0.0)
  {
    var width := Abs(LongLeg(legs).contract.strike - ShortLeg(legs).contract.strike);
    ScaleStrict(0.0, premium, k);
    ScaleStrict(0.0, width - premium, k);
    ScaleStrict(0.0, -premium, k);
    ScaleStrict(0.0, width + premium, k);
  }

  /** A protective structure is built exactly from its long put, or its long put above its
      short one, at a positive net price, with as many shares of the same symbol as stand
      behind the puts. */
  lemma ProtectiveIsBuiltIff(kind: StructureType, legs: seq<Leg>, quantity: int, underlying: Option<UnderlyingLeg>)
    requires kind == ProtectivePut || kind == ProtectivePutSpread
    ensures BuildStructure(kind, legs, quantity, underlying).Ok? <==>
      && (if kind == ProtectivePut then |legs| == 1 && legs[0].side == Long && legs[0].entryPrice > 0.0
          else IsPair(legs) && AlikeContracts(legs)
               && LongLeg(legs).contract.strike > ShortLeg(legs).contract.strike
               && LongLeg(legs).entryPrice > ShortLeg(legs).entryPrice)
      && (forall i | 0 <= i < |legs| ::
            legs[i].ratio == 1 && legs[i].contract.optionType == Put && legs[i].contract.quote.greeks.Some?)
      && quantity >= 1 && underlying.Some? && underlying.value.symbol == legs[0].contract.underlying
      && underlying.value.shares == legs[0].contract.multiplier * quantity
  {
    if |legs| == 1 {
      OneLegIsCommon(legs);
      if legs[0].ratio == 1 { PremiumOf(legs); }
    } else if |legs| == 2 {
      TwoLegsAreCommon(legs);
      if legs[0].ratio == 1 && legs[1].ratio == 1 { PremiumOf(legs); }
    }
    if legs != [] {
      var first := legs[0].contract;
      ProtectiveRiskIff(kind, legs, underlying, first.underlying, first.multiplier * quantity,
                        Premium(legs), ScaleOf(first, quantity));
    }
  }

  lemma ProtectiveRiskIff(kind: StructureType, legs: seq<Leg>, underlying: Option<UnderlyingLeg>, symbol: string,
                          shares: int, premium: real, k: real)
    requires legs != [] && (kind == ProtectivePut || kind == ProtectivePutSpread)
    ensures var r := Protective(kind, legs, underlying, symbol, shares, premium, k);
      && (r.Ok? <==>
            && underlying.Some? && underlying.value.symbol == symbol && underlying.value.shares == shares
            && (forall i | 0 <= i < |legs| :: legs[i].contract.optionType == Put) && premium > 0.0
            && (if kind == ProtectivePut then |legs| == 1 && legs[0].side == Long
                else IsPair(legs) && LongLeg(legs).contract.strike > ShortLeg(legs).contract.strike))
      && (r.Ok? ==> r.value.maxLoss >= 0.0 && r.value.maxProfit.None?)
  {
  }
}
