/** From an option chain to an order intent (packages/connected/opportunities.py) with
    candidate ranking (packages/strategy/catalyst.py). The verdicts of the liquidity
    filter, the broker gate and the market data are parameters. */
module Opportunity {

  import opened Common
  import opened OptionsEngine
  import opened Ordering
  import R = RiskPortfolio
  import I = OrderIdentity
  import D = Decimals

  // ----- Choosing the contracts -----

  predicate StrikeLeq(a: Contract, b: Contract) {
    a.strike <= b.strike
  }

  /** What the liquidity filter guarantees of a contract it lets through for `symbol`. */
  predicate IsExecutable(c: Contract, symbol: string) {
    c.underlying == symbol && c.quote.bid > 0.0 && c.quote.ask > 0.0 && c.quote.bid <= c.quote.ask
    && c.quote.greeks.Some?
  }

  function Eligible(contracts: seq<Contract>, wanted: OptionType, passes: Contract -> bool): seq<Contract> {
    Filter((c: Contract) => c.optionType == wanted && passes(c), contracts)
  }

  /** Exactly the contracts of the wanted type that pass, as often as they are listed. */
  lemma EligibleMeans(contracts: seq<Contract>, wanted: OptionType, passes: Contract -> bool)
    ensures forall c ::
      multiset(Eligible(contracts, wanted, passes))[c]
      == if c.optionType == wanted && passes(c) then multiset(contracts)[c] else 0
  {
    FilterMembers((c: Contract) => c.optionType == wanted && passes(c), contracts);
  }

  /** The earliest expiration of a chain. */
  function Earliest(chain: seq<Contract>): int
    requires chain != []
  {
    if |chain| == 1 then chain[0].expiration else
    var rest := Earliest(chain[..|chain| - 1]);
    var last := chain[|chain| - 1].expiration;
    if last < rest then last else rest
  }

  lemma {:induction false} EarliestIsFirst(chain: seq<Contract>)
    requires chain != []
    ensures forall i :: 0 <= i < |chain| ==> Earliest(chain) <= chain[i].expiration
    ensures exists i :: 0 <= i < |chain| && chain[i].expiration == Earliest(chain)
    decreases |chain|
  {
    var n := |chain| - 1;
    if n > 0 {
      var init := chain[..n];
      EarliestIsFirst(init);
      var k :| 0 <= k < n && init[k].expiration == Earliest(init);
      assert chain[if chain[n].expiration < Earliest(init) then n else k].expiration == Earliest(chain);
    } else {
      assert chain[0].expiration == Earliest(chain);
    }
  }

  function ExpiringAt(day: int): Contract -> bool {
    (c: Contract) => c.expiration == day
  }

  /** The contracts of the earliest expiration, by strike. */
  function Selected(chain: seq<Contract>): seq<Contract>
    requires chain != []
  {
    Sort(StrikeLeq, Filter(ExpiringAt(Earliest(chain)), chain))
  }

  lemma StrikesAreOrdered()
    ensures IsTotal(StrikeLeq) && IsTransitive(StrikeLeq)
  {
  }

  lemma SelectedIsSorted(chain: seq<Contract>)
    requires chain != []
    ensures forall c :: c in Selected(chain) <==> c in chain && c.expiration == Earliest(chain)
    ensures forall c ::
      multiset(Selected(chain))[c] == if c.expiration == Earliest(chain) then multiset(chain)[c] else 0
    ensures forall i, j :: 0 <= i < j < |Selected(chain)| ==> Selected(chain)[i].strike <= Selected(chain)[j].strike
  {
    var f := Filter(ExpiringAt(Earliest(chain)), chain);
    var s := Selected(chain);
    StrikesAreOrdered();
    SortSorts(StrikeLeq, f);
    SortKeepsElements(StrikeLeq, f);
    FilterMembers(ExpiringAt(Earliest(chain)), chain);
    forall c ensures c in s <==> c in f {
      assert c in s <==> c in multiset(s);
      assert c in f <==> c in multiset(f);
    }
    forall i, j | 0 <= i < j < |s| ensures s[i].strike <= s[j].strike {
      assert AtMost(StrikeLeq, s[..j], s[j]);
      assert StrikeLeq(s[..j][i], s[j]);
    }
  }

  // ----- Choosing the legs -----

  function Distance(c: Contract, price: real): real {
    Abs(c.strike - price)
  }

  lemma DistanceMeans(c: Contract, price: real)
    ensures Distance(c, price) == if c.strike >= price then c.strike - price else price - c.strike
  {
  }

  /** The first index of least distance to the price. */
  predicate IsFirstNearest(s: seq<Contract>, price: real, i: int) {
    && 0 <= i < |s|
    && (forall j :: 0 <= j < |s| ==> Distance(s[i], price) <= Distance(s[j], price))
    && (forall j :: 0 <= j < i ==> Distance(s[i], price) < Distance(s[j], price))
  }

  lemma FirstNearestIsUnique(s: seq<Contract>, price: real, i: int, j: int)
    requires IsFirstNearest(s, price, i) && IsFirstNearest(s, price, j)
    ensures i == j
  {
    assert Distance(s[i], price) <= Distance(s[j], price) && Distance(s[j], price) <= Distance(s[i], price);
  }

  method NearestIndex(s: seq<Contract>, price: real) returns (best: int)
    requires s != []
    ensures IsFirstNearest(s, price, best)
  {
    best := 0;
    for i := 1 to |s|
      invariant 0 <= best < i
      invariant forall j :: 0 <= j < i ==> Distance(s[best], price) <= Distance(s[j], price)
      invariant forall j :: 0 <= j < best ==> Distance(s[best], price) < Distance(s[j], price)
    {
      if Distance(s[i], price) < Distance(s[best], price) {
        best := i;
      }
    }
  }

  /** The long leg is the nearest contract, or the one next to it inside when the nearest
      has no neighbour on the side of the short leg. */
  predicate IsLongIndex(wanted: OptionType, s: seq<Contract>, nearest: int, long: int) {
    if wanted == Call then long == if nearest == |s| - 1 then nearest - 1 else nearest
    else long == if nearest == 0 then 1 else nearest
  }

  /** Long and short are neighbours of the sorted chain, in range and in the order that the
      debit spread needs, and the nearest contract is one of them. */
  method SelectLegs(wanted: OptionType, s: seq<Contract>, price: real) returns (long: int, short: int)
    requires |s| >= 2
    ensures 0 <= long < |s| && 0 <= short < |s|
    ensures if wanted == Call then short == long + 1 else short == long - 1
    ensures exists nearest :: IsFirstNearest(s, price, nearest) && IsLongIndex(wanted, s, nearest, long)
              && (nearest == long || nearest == short)
  {
    var nearest := NearestIndex(s, price);
    long := nearest;
    if wanted == Call {
      if long == |s| - 1 {
        long := long - 1;
      }
      short := long + 1;
    } else {
      if long == 0 {
        long := 1;
      }
      short := long - 1;
    }
  }

  // ----- Building the spread -----

  function SpreadKind(wanted: OptionType): StructureType {
    if wanted == Call then BullCallDebit else BearPutDebit
  }

  function SpreadLegs(long: Contract, short: Contract): seq<Leg> {
    [Leg(long, Long, 1, long.quote.ask), Leg(short, Short, 1, short.quote.bid)]
  }

  function Debit(long: Contract, short: Contract): real {
    long.quote.ask - short.quote.bid
  }

  lemma SpreadPremium(long: Contract, short: Contract)
    ensures Premium(SpreadLegs(long, short)) == Debit(long, short)
    ensures CommonError(SpreadLegs(long, short), long).None? <==>
      short.underlying == long.underlying && short.expiration == long.expiration && short.multiplier == long.multiplier
  {
    var legs := SpreadLegs(long, short);
    PremiumOf(legs);
    assert legs[1..] == [legs[1]] && legs[1..][1..] == [];
    assert CommonError([legs[1]], long).None? <==>
      short.underlying == long.underlying && short.expiration == long.expiration && short.multiplier == long.multiplier;
  }

  /** The spread of two executable neighbours can be rejected only for unequal multipliers,
      equal strikes, or a debit that is not strictly between zero and the width. */
  lemma SpreadIsBuiltIff(wanted: OptionType, long: Contract, short: Contract, symbol: string)
    requires IsExecutable(long, symbol) && IsExecutable(short, symbol)
    requires long.optionType == wanted && short.optionType == wanted && long.expiration == short.expiration
    requires if wanted == Call then long.strike <= short.strike else short.strike <= long.strike
    ensures BuildStructure(SpreadKind(wanted), SpreadLegs(long, short), 1, None).Ok? <==>
      && long.multiplier == short.multiplier
      && long.strike != short.strike
      && 0.0 < Debit(long, short) < Abs(long.strike - short.strike)
  {
    var legs := SpreadLegs(long, short);
    SpreadPremium(long, short);
    assert HasGreeks(legs);
    var k := ScaleOf(long, 1);
    ProductAtLeastOne(long.multiplier, 1);
    var risk := Vertical(SpreadKind(wanted), legs, None, Debit(long, short), k);
    assert IsPair(legs) && LongLeg(legs) == legs[0] && ShortLeg(legs) == legs[1];
    assert DeclaredRisk(SpreadKind(wanted), legs, 1, None) == risk;
    if risk.Ok? {
      var p, w := Debit(long, short), Abs(long.strike - short.strike);
      ScaleStrict(0.0, p, k);
      ScaleStrict(0.0, w - p, k);
    }
  }

  // ----- Ranking -----

  /** `quote.spread_ratio or 1`: a missing ratio and a ratio of zero both count as one. */
  function SpreadCost(q: Quote): real {
    var midpoint := (q.bid + q.ask) / 2.0;
    if midpoint <= 0.0 || q.ask == q.bid then 1.0 else (q.ask - q.bid) / midpoint
  }

  function TotalSpreadCost(legs: seq<Leg>): real {
    if legs == [] then 0.0 else TotalSpreadCost(legs[..|legs| - 1]) + SpreadCost(legs[|legs| - 1].contract.quote)
  }

  datatype Ranked = Ranked(structureId: string, structure: Structure, score: real)

  /** The nearest integer; the even one of two. */
  function HalfEven(x: real): int {
    var f := x.Floor;
    var r := x - f as real;
    if r < 0.5 || (r == 0.5 && f % 2 == 0) then f else f + 1
  }

  /** `quantize(Decimal("0.0001"))`. */
  function Quantize(x: real): real {
    HalfEven(x * 10000.0) as real / 10000.0
  }

  lemma HalfEvenIsNearest(x: real)
    ensures x.Floor <= HalfEven(x) <= x.Floor + 1
    ensures -0.5 <= HalfEven(x) as real - x <= 0.5
    ensures x - x.Floor as real == 0.5 ==> HalfEven(x) % 2 == 0
  {
  }

  lemma HalfEvenIsMonotone(x: real, y: real)
    requires x <= y
    ensures HalfEven(x) <= HalfEven(y)
  {
    HalfEvenIsNearest(x);
    HalfEvenIsNearest(y);
    if x.Floor == y.Floor {
      assert x - x.Floor as real <= y - y.Floor as real;
    } else {
      assert x.Floor + 1 <= y.Floor;
    }
  }

  /** Quantizing moves a score by at most half a unit of the fourth decimal place and keeps
      the order of any two scores, up to ties. */
  lemma QuantizeIsNearest(x: real, y: real)
    ensures -0.00005 <= Quantize(x) - x <= 0.00005
    ensures x <= y ==> Quantize(x) <= Quantize(y)
  {
    HalfEvenIsNearest(x * 10000.0);
    if x <= y { HalfEvenIsMonotone(x * 10000.0, y * 10000.0); }
  }

  function Score(s: Structure): real
    requires s.maxProfit.Some? && s.maxLoss != 0.0 && s.legs != []
  {
    Quantize(s.maxProfit.value / s.maxLoss * 50.0 - TotalSpreadCost(s.legs) / |s.legs| as real * 100.0)
  }

  /** The cost of a quote: its spread over its midpoint, but one when there is no spread. */
  lemma SpreadCostMeans(q: Quote)
    ensures q.bid == q.ask || q.bid + q.ask == 0.0 ==> SpreadCost(q) == 1.0
    ensures q.bid != q.ask && q.bid + q.ask > 0.0 ==> SpreadCost(q) * (q.bid + q.ask) == 2.0 * (q.ask - q.bid)
  {
    if q.bid != q.ask && q.bid + q.ask > 0.0 {
      var midpoint := (q.bid + q.ask) / 2.0;
      assert SpreadCost(q) * midpoint == q.ask - q.bid;
    }
  }

  lemma PairCost(legs: seq<Leg>)
    requires |legs| == 2
    ensures TotalSpreadCost(legs) == SpreadCost(legs[0].contract.quote) + SpreadCost(legs[1].contract.quote)
  {
    var front, none: seq<Leg> := legs[..1], [];
    assert legs[..|legs| - 1] == front && front[..|front| - 1] == none && front[0] == legs[0];
    assert TotalSpreadCost(none) == 0.0;
  }

  /** The score of a pair: 50 for each unit of reward per risk, less 50 for each unit of
      either leg's spread cost. */
  lemma ScoreOfPair(s: Structure, reward: real, cost: real)
    requires s.maxProfit.Some? && s.maxLoss != 0.0 && |s.legs| == 2
    requires reward == s.maxProfit.value / s.maxLoss
    requires cost == SpreadCost(s.legs[0].contract.quote) + SpreadCost(s.legs[1].contract.quote)
    ensures Score(s) == Quantize(reward * 50.0 - cost * 50.0)
  {
    PairCost(s.legs);
    assert cost / 2.0 * 100.0 == cost * 50.0;
  }

  /** More reward for the risk or less spread cost never lowers the score. */
  lemma ScoreIsMonotone(a: Structure, b: Structure)
    requires a.maxProfit.Some? && a.maxLoss != 0.0 && |a.legs| == 2
    requires b.maxProfit.Some? && b.maxLoss != 0.0 && |b.legs| == 2
    requires a.maxProfit.value / a.maxLoss <= b.maxProfit.value / b.maxLoss
    requires SpreadCost(a.legs[0].contract.quote) + SpreadCost(a.legs[1].contract.quote)
          >= SpreadCost(b.legs[0].contract.quote) + SpreadCost(b.legs[1].contract.quote)
    ensures Score(a) <= Score(b)
  {
    var ra, rb := a.maxProfit.value / a.maxLoss, b.maxProfit.value / b.maxLoss;
    var ca := SpreadCost(a.legs[0].contract.quote) + SpreadCost(a.legs[1].contract.quote);
    var cb := SpreadCost(b.legs[0].contract.quote) + SpreadCost(b.legs[1].contract.quote);
    ScoreOfPair(a, ra, ca);
    ScoreOfPair(b, rb, cb);
    QuantizeIsNearest(ra * 50.0 - ca * 50.0, rb * 50.0 - cb * 50.0);
  }

  /** Higher score first, then by structure id. */
  predicate BetterOrEqual(a: Ranked, b: Ranked) {
    a.score > b.score || (a.score == b.score && StringLeq(a.structureId, b.structureId))
  }

  predicate IsWanted(s: Structure, bullish: bool) {
    s.structureType == (if bullish then BullCallDebit else BearPutDebit) && s.maxProfit.Some?
  }

  function Wanted(bullish: bool, structures: seq<Structure>, ids: seq<string>): seq<(string, Structure)>
    requires |ids| == |structures|
  {
    if structures == [] then [] else
    var n := |structures| - 1;
    Wanted(bullish, structures[..n], ids[..n])
    + if IsWanted(structures[n], bullish) then [(ids[n], structures[n])] else []
  }

  /** Every structure of the wanted type with a maximum profit is wanted, and no other. */
  lemma {:induction false} WantedMeans(bullish: bool, structures: seq<Structure>, ids: seq<string>,
                                       x: (string, Structure))
    requires |ids| == |structures|
    ensures x in Wanted(bullish, structures, ids) <==>
      exists i | 0 <= i < |structures| ::
        x == (ids[i], structures[i]) && x.1.maxProfit.Some?
        && x.1.structureType == (if bullish then BullCallDebit else BearPutDebit)
    decreases |structures|
  {
    if structures != [] {
      var n := |structures| - 1;
      WantedMeans(bullish, structures[..n], ids[..n], x);
      if x in Wanted(bullish, structures[..n], ids[..n]) {
        var i :| 0 <= i < n && x == (ids[..n][i], structures[..n][i]);
        assert x == (ids[i], structures[i]);
      }
      if i :| 0 <= i < |structures| && x == (ids[i], structures[i]) && IsWanted(x.1, bullish) {
        if i < n { assert x == (ids[..n][i], structures[..n][i]); }
      }
    }
  }

  /** The ids and structures of ranked candidates, in order. */
  function Pairs(rs: seq<Ranked>): seq<(string, Structure)> {
    seq(|rs|, i requires 0 <= i < |rs| => (rs[i].structureId, rs[i].structure))
  }

  lemma PairsSnoc(rs: seq<Ranked>, next: Ranked)
    ensures Pairs(rs + [next]) == Pairs(rs) + [(next.structureId, next.structure)]
  {
  }

  /** The candidate carries the score of its structure. */
  predicate IsScored(x: Ranked) {
    x.structure.maxProfit.Some? && x.structure.maxLoss != 0.0 && x.structure.legs != [] && x.score == Score(x.structure)
  }

  lemma BuiltDebitHasRisk(s: Structure)
    requires IsBuilt(s) && s.structureType in {BullCallDebit, BearPutDebit}
    ensures s.maxLoss > 0.0 && s.legs != [] && s.maxProfit.Some?
  {
    var k := Built(s);
    ClippedIsMet(UnitLoss(s), UnitLoss(s), k);
    ScaleStrict(0.0, UnitLoss(s), k);
  }

  lemma RanksAreOrdered()
    ensures IsTotal(BetterOrEqual) && IsTransitive(BetterOrEqual)
  {
    forall a, b ensures BetterOrEqual(a, b) || BetterOrEqual(b, a) { StringTotal(a.structureId, b.structureId); }
    forall a, b, c | BetterOrEqual(a, b) && BetterOrEqual(b, c) ensures BetterOrEqual(a, c) {
      var x, y, z := a.structureId, b.structureId, c.structureId;
      if StringLeq(x, y) && StringLeq(y, z) { StringTransitive(x, y, z); }
    }
  }

  /** Every built structure of the wanted type is ranked, no other, best first; no built
      structure makes the ranking divide by zero. */
  method RankCandidates(bullish: bool, structures: seq<Structure>, ids: seq<string>)
    returns (r: Result<seq<Ranked>, string>, ghost collected: seq<Ranked>)
    requires |ids| == |structures|
    ensures (forall i :: 0 <= i < |structures| ==> IsBuilt(structures[i])) ==> r.Ok?
    ensures r.Ok? ==>
      && Pairs(collected) == Wanted(bullish, structures, ids)
      && multiset(r.value) == multiset(collected) && |r.value| == |collected|
      && IsSorted(BetterOrEqual, r.value)
      && (forall i, j | 0 <= i < j < |r.value| ::
            r.value[i].score > r.value[j].score
            || (r.value[i].score == r.value[j].score && StringLeq(r.value[i].structureId, r.value[j].structureId)))
      && forall x | x in r.value :: IsScored(x)
  {
    var ranked: seq<Ranked> := [];
    collected := [];
    for i := 0 to |structures|
      invariant Pairs(ranked) == Wanted(bullish, structures[..i], ids[..i])
      invariant forall x | x in ranked :: IsScored(x)
    {
      var s := structures[i];
      assert structures[..i + 1][..i] == structures[..i] && ids[..i + 1][..i] == ids[..i];
      if !IsWanted(s, bullish) {
        continue;
      }
      if IsBuilt(s) { BuiltDebitHasRisk(s); }
      if s.maxLoss == 0.0 || s.legs == [] {
        return Err("division by zero"), [];
      }
      var next := Ranked(ids[i], s, Score(s));
      PairsSnoc(ranked, next);
      ranked := ranked + [next];
    }
    assert structures[..|structures|] == structures && ids[..|ids|] == ids;
    collected := ranked;
    SortedRanks(ranked);
    return Ok(Sort(BetterOrEqual, ranked)), collected;
  }

  lemma SortedRanks(ranked: seq<Ranked>)
    ensures var sorted := Sort(BetterOrEqual, ranked);
      && multiset(sorted) == multiset(ranked) && |sorted| == |ranked|
      && IsSorted(BetterOrEqual, sorted)
      && (forall x :: x in sorted ==> x in ranked)
      && (forall i, j | 0 <= i < j < |sorted| ::
            sorted[i].score > sorted[j].score
            || (sorted[i].score == sorted[j].score && StringLeq(sorted[i].structureId, sorted[j].structureId)))
  {
    var sorted := Sort(BetterOrEqual, ranked);
    RanksAreOrdered();
    SortSorts(BetterOrEqual, ranked);
    SortKeepsElements(BetterOrEqual, ranked);
    assert |sorted| == |multiset(sorted)| == |ranked|;
    forall x | x in sorted ensures x in ranked {
      assert x in multiset(sorted);
    }
    forall i, j | 0 <= i < j < |sorted| ensures BetterOrEqual(sorted[i], sorted[j]) {
      assert AtMost(BetterOrEqual, sorted[..j], sorted[j]);
      assert sorted[..j][i] == sorted[i];
    }
  }

  // ----- The analysis -----

  datatype Account = Account(equity: Positive, lastEquity: real)

  /** The risk context of a scan: planned losses reported as zero, the loss and drawdown of
      the day, and the number of positions as the number of structures. */
  function ScanContext(a: Account, positions: nat, gateAllowed: bool): R.Context {
    var loss := Max(a.lastEquity - a.equity, 0.0);
    R.Context(a.equity, 0.0, 0.0, loss, loss / Max(a.lastEquity, 1.0) * 100.0, positions,
              Greeks(0.0, 0.0, 0.0, 0.0), gateAllowed, false)
  }

  /** What the risk engine needs of the structure and of the account to approve in a scan: the
      gate open, fewer than 8 positions, a loss within half a percent of the equity, a day's
      loss below 2 percent of the equity and below 10 percent of the last equity, and the
      structure's Greeks within their limits. */
  predicate AccountAllows(s: Structure, a: Account, positions: nat, gateAllowed: bool) {
    && gateAllowed && positions < 8
    && s.maxLoss / a.equity * 100.0 <= 0.5
    && (a.lastEquity - a.equity) / a.equity * 100.0 < 2.0
    && (a.lastEquity - a.equity) / (if a.lastEquity >= 1.0 then a.lastEquity else 1.0) * 100.0 < 10.0
    && -5000.0 <= s.greeks.delta <= 5000.0 && -1000.0 <= s.greeks.gamma <= 1000.0
    && -1000.0 <= s.greeks.theta <= 1000.0 && -5000.0 <= s.greeks.vega <= 5000.0
  }

  /** The share of a loss that is taken as zero when it is a gain. */
  lemma ClippedShare(x: real, whole: real, limit: real)
    requires whole > 0.0 && limit > 0.0
    ensures Max(x, 0.0) / whole * 100.0 < limit <==> x / whole * 100.0 < limit
  {
    if x < 0.0 {
      var q := x / whole;
      assert q * whole == x;
      assert q < 0.0;
    }
  }

  lemma ScanApprovalMeans(s: Structure, a: Account, positions: nat, gateAllowed: bool)
    ensures R.Evaluate(R.DEFAULT_POLICY, s, ScanContext(a, positions, gateAllowed)).approved
      <==> AccountAllows(s, a, positions, gateAllowed)
  {
    R.DefaultApprovalMeans(s, ScanContext(a, positions, gateAllowed));
    ClippedShare(a.lastEquity - a.equity, a.equity, 2.0);
    ClippedShare(a.lastEquity - a.equity, Max(a.lastEquity, 1.0), 10.0);
  }

  datatype Analysis =
    | Unavailable(reason: string)
    | Raised(reason: string)
    | RiskRejected(candidate: I.Candidate, decision: R.Decision)
    | Trade(candidate: I.Candidate, decision: R.Decision, intent: I.OrderIntent)

  /** What the program is given besides the chain: ids it draws, the hash and how a decimal
      number is written. */
  datatype Environment = Environment(
    structureId: string, decisionId: string, hash: string -> string, spelling: real -> D.Dec,
    account: Option<Account>, positions: nat, gateAllowed: bool)

  const POLICY := "LIMIT_AT_CALCULATED_NET_V1"

  /** A single built structure of the wanted type gives exactly one candidate: itself. */
  lemma OnlyOneIsRanked(bullish: bool, s: Structure, id: string, sorted: seq<Ranked>, collected: seq<Ranked>)
    requires IsWanted(s, bullish)
    requires Pairs(collected) == Wanted(bullish, [s], [id])
    requires multiset(sorted) == multiset(collected) && |sorted| == |collected|
    ensures |sorted| == 1 && sorted[0].structure == s && sorted[0].structureId == id
  {
    assert [s][..0] == [] && [id][..0] == [];
    assert Wanted(bullish, [s], [id]) == [(id, s)];
    assert |Pairs(collected)| == |collected|;
    assert Pairs(collected)[0] == (collected[0].structureId, collected[0].structure);
    assert sorted[0] in multiset(sorted);
    assert sorted[0] in collected;
  }

  /** The chain that `analyze` selects from, for contracts that the filter let through. */
  predicate IsChain(chain: seq<Contract>, wanted: OptionType, symbol: string) {
    forall i :: 0 <= i < |chain| ==> chain[i].optionType == wanted && IsExecutable(chain[i], symbol)
  }

  /** `structure` is the spread of the two neighbours `long` and `short` of the sorted chain,
      and the long one is where `SelectLegs` puts it. */
  ghost predicate IsSpreadOf(structure: Structure, wanted: OptionType, s: seq<Contract>, price: real,
                             long: int, short: int)
  {
    && IsLegChoice(wanted, s, price, long, short)
    && BuildStructure(SpreadKind(wanted), SpreadLegs(s[long], s[short]), 1, None) == Ok(structure)
  }

  ghost predicate IsLegChoice(wanted: OptionType, s: seq<Contract>, price: real, long: int, short: int) {
    && 0 <= long < |s| && 0 <= short < |s|
    && (if wanted == Call then short == long + 1 else short == long - 1)
    && exists nearest :: IsFirstNearest(s, price, nearest) && IsLongIndex(wanted, s, nearest, long)
         && (nearest == long || nearest == short)
  }

  /** When `build_structure` accepts the two legs. */
  predicate CanBuild(l: Contract, s: Contract) {
    l.multiplier == s.multiplier && l.strike != s.strike && 0.0 < Debit(l, s) < Abs(l.strike - s.strike)
  }

  lemma NeighboursFit(chain: seq<Contract>, wanted: OptionType, symbol: string, long: int, short: int)
    requires chain != [] && IsChain(chain, wanted, symbol)
    requires 0 <= long < |Selected(chain)| && 0 <= short < |Selected(chain)|
    requires if wanted == Call then short == long + 1 else short == long - 1
    ensures var l, s := Selected(chain)[long], Selected(chain)[short];
      && IsExecutable(l, symbol) && IsExecutable(s, symbol)
      && l.optionType == wanted && s.optionType == wanted && l.expiration == s.expiration
      && if wanted == Call then l.strike <= s.strike else s.strike <= l.strike
  {
    SelectedIsSorted(chain);
    var l, s := Selected(chain)[long], Selected(chain)[short];
    assert l in Selected(chain) && s in Selected(chain);
    assert l in chain && s in chain;
  }

  /** The spread of the selected legs, or the rejection by `build_structure`, which happens
      only for unequal multipliers, equal strikes or a debit outside the width. */
  method ProposeSpread(chain: seq<Contract>, wanted: OptionType, price: real, ghost symbol: string)
    returns (r: Result<Structure, string>, long: int, short: int)
    requires chain != [] && IsChain(chain, wanted, symbol) && |Selected(chain)| >= 2
    ensures IsLegChoice(wanted, Selected(chain), price, long, short)
    ensures r.Ok? <==> CanBuild(Selected(chain)[long], Selected(chain)[short])
    ensures r.Ok? ==> IsBuilt(r.value) && r.value.structureType == SpreadKind(wanted) && r.value.quantity == 1
                      && IsSpreadOf(r.value, wanted, Selected(chain), price, long, short)
  {
    var selected := Selected(chain);
    long, short := SelectLegs(wanted, selected, price);
    NeighboursFit(chain, wanted, symbol, long, short);
    SpreadIsBuiltIff(wanted, selected[long], selected[short], symbol);
    r := BuildStructure(SpreadKind(wanted), SpreadLegs(selected[long], selected[short]), 1, None);
    if r.Ok? {
      BuiltIsBuilt(SpreadKind(wanted), SpreadLegs(selected[long], selected[short]), 1, None);
    }
  }

  /** What the analysis concludes about the structure `s`. */
  ghost predicate Concludes(a: Analysis, s: Structure, env: Environment) {
    if env.account.None? then a == Unavailable("broker_account_unavailable") else
    var d := R.Evaluate(R.DEFAULT_POLICY, s, ScanContext(env.account.value, env.positions, env.gateAllowed));
    if !AccountAllows(s, env.account.value, env.positions, env.gateAllowed) then
      a == RiskRejected(I.Candidate(env.structureId, s), d) && !d.approved
    else
      && a.Trade? && a.candidate == I.Candidate(env.structureId, s) && a.decision == d
      && I.IsValid(env.hash, a.intent) && D.Value(a.intent.identity.price) == s.netPremium
      && a.intent.identity == I.Identity(env.decisionId, I.IntentLegs(s.legs), s.quantity,
                                         env.spelling(s.netPremium), "day", "LIMIT_AT_CALCULATED_NET_V1")
  }

  /** Ranking, risk and the intent: a trade exactly when the risk engine approves, its limit
      price worth the net premium of the structure. */
  method Conclude(structure: Structure, wanted: OptionType, env: Environment) returns (a: Analysis)
    requires D.Spells(env.spelling) && D.IsDecimal(structure.netPremium)
    requires IsBuilt(structure) && structure.structureType == SpreadKind(wanted) && structure.quantity == 1
    ensures Concludes(a, structure, env)
    ensures a.Trade? <==>
      env.account.Some? && AccountAllows(structure, env.account.value, env.positions, env.gateAllowed)
    ensures a.Trade? ==> a.decision.approved
    ensures a.Trade? ==> D.Value(a.intent.identity.price) == structure.netPremium
  {
    BuiltDebitHasRisk(structure);
    var ranked, collected := RankCandidates(wanted == Call, [structure], [env.structureId]);
    OnlyOneIsRanked(wanted == Call, structure, env.structureId, ranked.value, collected);
    var candidate := I.Candidate(ranked.value[0].structureId, ranked.value[0].structure);
    if env.account.None? {
      return Unavailable("broker_account_unavailable");
    }
    ScanApprovalMeans(structure, env.account.value, env.positions, env.gateAllowed);
    var decision := R.Evaluate(R.DEFAULT_POLICY, candidate.structure,
                               ScanContext(env.account.value, env.positions, env.gateAllowed));
    if !decision.approved {
      return RiskRejected(candidate, decision);
    }
    var created := I.CreateOrderIntent(env.hash, I.RiskDecision(env.decisionId, candidate.structureId, true), candidate,
                                       1, None, env.spelling(candidate.structure.netPremium), POLICY);
    return Trade(candidate, decision, created.value);
  }

  lemma EligibleIsChain(contracts: seq<Contract>, wanted: OptionType, passes: Contract -> bool, symbol: string)
    requires forall c :: passes(c) ==> IsExecutable(c, symbol)
    ensures IsChain(Eligible(contracts, wanted, passes), wanted, symbol)
  {
    var p := (c: Contract) => c.optionType == wanted && passes(c);
    FilterMembers(p, contracts);
    var chain := Eligible(contracts, wanted, passes);
    forall i | 0 <= i < |chain| ensures chain[i].optionType == wanted && IsExecutable(chain[i], symbol) {
      assert chain[i] in Filter(p, contracts);
    }
  }

  /** What the analysis says about the sorted chain `s`: the selected legs cannot be built,
      or their spread is judged. */
  ghost predicate Judges(a: Analysis, wanted: OptionType, s: seq<Contract>, price: real, env: Environment) {
    exists long, short :: IsLegChoice(wanted, s, price, long, short)
      && if !CanBuild(s[long], s[short]) then a.Raised?
         else exists structure :: IsSpreadOf(structure, wanted, s, price, long, short) && Concludes(a, structure, env)
  }

  /** The prices of a quote are decimals. */
  ghost predicate IsPriced(c: Contract) {
    D.IsDecimal(c.quote.bid) && D.IsDecimal(c.quote.ask)
  }

  /** The net premium of the selected spread is a decimal too. */
  lemma SpreadIsPriced(contracts: seq<Contract>, wanted: OptionType, passes: Contract -> bool, long: int, short: int)
    requires forall i :: 0 <= i < |contracts| ==> IsPriced(contracts[i])
    requires var chain := Eligible(contracts, wanted, passes);
      chain != [] && 0 <= long < |Selected(chain)| && 0 <= short < |Selected(chain)|
    ensures var s := Selected(Eligible(contracts, wanted, passes)); D.IsDecimal(Debit(s[long], s[short]))
  {
    var chain := Eligible(contracts, wanted, passes);
    var s := Selected(chain);
    SelectedIsSorted(chain);
    FilterMembers((c: Contract) => c.optionType == wanted && passes(c), contracts);
    assert s[long] in chain && s[short] in chain;
    assert s[long] in contracts && s[short] in contracts;
    D.DifferenceIsDecimal(s[long].quote.ask, s[short].quote.bid);
  }

  /** `analyze` from the option chain on. */
  method Analyze(symbol: string, contracts: seq<Contract>, wanted: OptionType, price: real,
                 passes: Contract -> bool, env: Environment)
    returns (a: Analysis)
    requires forall c :: passes(c) ==> IsExecutable(c, symbol)
    requires D.Spells(env.spelling) && forall i :: 0 <= i < |contracts| ==> IsPriced(contracts[i])
    ensures var chain := Eligible(contracts, wanted, passes);
      if chain == [] then a == Unavailable("no_eligible_option_chain")
      else if |Selected(chain)| < 2 then a == Unavailable("insufficient_vertical_legs")
      else Judges(a, wanted, Selected(chain), price, env)
  {
    var chain := Eligible(contracts, wanted, passes);
    EligibleIsChain(contracts, wanted, passes, symbol);
    if chain == [] {
      return Unavailable("no_eligible_option_chain");
    }
    if |Selected(chain)| < 2 {
      return Unavailable("insufficient_vertical_legs");
    }
    var spread, long, short := ProposeSpread(chain, wanted, price, symbol);
    if spread.Err? {
      return Raised(spread.error);
    }
    SpreadIsPriced(contracts, wanted, passes, long, short);
    SpreadPremium(Selected(chain)[long], Selected(chain)[short]);
    a := Conclude(spread.value, wanted, env);
  }
}
