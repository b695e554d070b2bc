/** Strategy Lab evidence (packages/lab/evidence.py) over exact rationals. */
module LabEvidence {

  import opened Common
  import opened Ordering

  // ----- Point-in-time visibility -----

  datatype Observation = Observation(id: string, observedAt: int, availableAt: int, payload: string)

  /** The sort key (observed_at, available_at, id), compared lexicographically. */
  predicate ObservationLeq(a: Observation, b: Observation) {
    || a.observedAt < b.observedAt
    || (a.observedAt == b.observedAt
        && (a.availableAt < b.availableAt || (a.availableAt == b.availableAt && StringLeq(a.id, b.id))))
  }

  predicate IsAvailable(now: int, x: Observation) {
    x.availableAt <= now
  }

  function AvailableAt(now: int): Observation -> bool {
    x => IsAvailable(now, x)
  }

  /** `SimulationClock.visible`. */
  function Visible(now: int, xs: seq<Observation>): seq<Observation> {
    Sort(ObservationLeq, Filter(AvailableAt(now), xs))
  }

  lemma ObservationsAreOrdered()
    ensures IsTotal(ObservationLeq) && IsTransitive(ObservationLeq)
  {
    forall a, b ensures ObservationLeq(a, b) || ObservationLeq(b, a) { StringTotal(a.id, b.id); }
    forall a, b, c | ObservationLeq(a, b) && ObservationLeq(b, c) ensures ObservationLeq(a, c) {
      if StringLeq(a.id, b.id) && StringLeq(b.id, c.id) { StringTransitive(a.id, b.id, c.id); }
    }
  }

  /** The result holds exactly the available observations, as often as they occur, in order. */
  lemma VisibleIsSortedAvailable(now: int, xs: seq<Observation>)
    ensures IsSorted(ObservationLeq, Visible(now, xs))
    ensures forall x :: multiset(Visible(now, xs))[x] == if x.availableAt <= now then multiset(xs)[x] else 0
  {
    ObservationsAreOrdered();
    SortSorts(ObservationLeq, Filter(AvailableAt(now), xs));
    SortKeepsElements(ObservationLeq, Filter(AvailableAt(now), xs));
    FilterMembers(AvailableAt(now), xs);
  }

  lemma SortedInOrder<T>(leq: (T, T) -> bool, s: seq<T>, i: int, j: int)
    requires IsSorted(leq, s) && 0 <= i < j < |s|
    ensures leq(s[i], s[j])
  {
    assert AtMost(leq, s[..j], s[j]);
    assert s[..j][i] == s[i];
  }

  /** The order is by the time observed, then the time available, then the id. */
  lemma VisibleIsInOrder(now: int, xs: seq<Observation>, i: int, j: int)
    requires 0 <= i < j < |Visible(now, xs)|
    ensures var a, b := Visible(now, xs)[i], Visible(now, xs)[j];
      || a.observedAt < b.observedAt
      || (a.observedAt == b.observedAt && a.availableAt < b.availableAt)
      || (a.observedAt == b.observedAt && a.availableAt == b.availableAt && StringLeq(a.id, b.id))
  {
    VisibleIsSortedAvailable(now, xs);
    SortedInOrder(ObservationLeq, Visible(now, xs), i, j);
  }

  /** Observations that become available later leave no trace, wherever they are. */
  lemma FutureIsInvisible(now: int, before: seq<Observation>, future: seq<Observation>, after: seq<Observation>)
    requires forall i :: 0 <= i < |future| ==> !IsAvailable(now, future[i])
    ensures Visible(now, before + future + after) == Visible(now, before + after)
  {
    var p := AvailableAt(now);
    FilterAppend(p, before + future, after);
    FilterAppend(p, before, future);
    FilterAppend(p, before, after);
    FilterNone(p, future);
    assert Filter(p, before) + [] == Filter(p, before);
  }

  predicate IdsAreDistinct(now: int, xs: seq<Observation>) {
    forall x, y | x in xs && y in xs && IsAvailable(now, x) && IsAvailable(now, y) :: x.id == y.id ==> x == y
  }

  /** When ids are distinct the result depends on nothing but which observations are
      available: not on the order of the input, and not on any future observation. */
  lemma VisibleDependsOnAvailableOnly(now: int, xs: seq<Observation>, ys: seq<Observation>)
    requires IdsAreDistinct(now, xs)
    requires forall x :: IsAvailable(now, x) ==> multiset(xs)[x] == multiset(ys)[x]
    ensures Visible(now, xs) == Visible(now, ys)
  {
    ObservationsAreOrdered();
    VisibleIsSortedAvailable(now, xs);
    VisibleIsSortedAvailable(now, ys);
    var a, b := Visible(now, xs), Visible(now, ys);
    assert multiset(a) == multiset(b);
    forall x, y | x in a && y in a && ObservationLeq(x, y) && ObservationLeq(y, x) ensures x == y {
      StringAntisymmetric(x.id, y.id);
      assert x in multiset(a) && y in multiset(a);
      assert x in multiset(xs) && y in multiset(xs);
    }
    SortedIsUnique(ObservationLeq, a, b);
  }

  ghost predicate IsSubsequence<T>(a: seq<T>, b: seq<T>) {
    if a == [] then true
    else if b == [] then false
    else if a[|a| - 1] == b[|b| - 1] then IsSubsequence(a[..|a| - 1], b[..|b| - 1])
    else IsSubsequence(a, b[..|b| - 1])
  }

  lemma {:induction false} FilterComposes(early: int, late: int, xs: seq<Observation>)
    requires early <= late
    ensures Filter(AvailableAt(early), Filter(AvailableAt(late), xs))
         == Filter(AvailableAt(early), xs)
    decreases |xs|
  {
    if xs != [] {
      var init := xs[..|xs| - 1];
      FilterComposes(early, late, init);
      var f := Filter(AvailableAt(late), init);
      var x := xs[|xs| - 1];
      if IsAvailable(late, x) {
        FilterSnoc(AvailableAt(early), f, x);
      } else {
        assert f + [] == f;
        assert Filter(AvailableAt(early), init) + [] == Filter(AvailableAt(early), init);
      }
    }
  }

  /** What was visible earlier is what a later clock shows, less the newer observations, in
      the same order. */
  lemma EarlierViewIsPartOfLater(early: int, late: int, xs: seq<Observation>)
    requires early <= late
    ensures Visible(early, xs) == Filter(AvailableAt(early), Visible(late, xs))
  {
    ObservationsAreOrdered();
    FilterSort(ObservationLeq, AvailableAt(early), Filter(AvailableAt(late), xs));
    FilterComposes(early, late, xs);
  }

  lemma {:induction false} DropLastIsSubsequence<T>(a: seq<T>, b: seq<T>)
    requires IsSubsequence(a, b) && a != []
    ensures IsSubsequence(a[..|a| - 1], b)
    decreases |b|
  {
    var init := a[..|a| - 1];
    if b != [] {
      if a[|a| - 1] == b[|b| - 1] {
        if init != [] {
          if init[|init| - 1] == b[|b| - 1] { DropLastIsSubsequence(init, b[..|b| - 1]); }
        }
      } else {
        DropLastIsSubsequence(a, b[..|b| - 1]);
        if init != [] && init[|init| - 1] == b[|b| - 1] { DropLastIsSubsequence(init, b[..|b| - 1]); }
      }
    }
  }

  lemma {:induction false} FilterIsSubsequence<T>(p: T -> bool, s: seq<T>)
    ensures IsSubsequence(Filter(p, s), s)
    decreases |s|
  {
    if s != [] {
      var n := |s| - 1;
      var f := Filter(p, s[..n]);
      FilterIsSubsequence(p, s[..n]);
      if p(s[n]) {
        assert (f + [s[n]])[..|f|] == f;
      } else {
        assert Filter(p, s) == f + [] == f;
        FilterMembers(p, s[..n]);
        if f != [] { assert f[|f| - 1] in f; }
      }
    }
  }

  lemma VisibleGrows(early: int, late: int, xs: seq<Observation>)
    requires early <= late
    ensures IsSubsequence(Visible(early, xs), Visible(late, xs))
  {
    EarlierViewIsPartOfLater(early, late, xs);
    FilterIsSubsequence(AvailableAt(early), Visible(late, xs));
  }

  // ----- Historical analogs -----

  datatype Analog = Analog(eventId: string, availableAt: int, features: map<string, real>, forwardReturn: real)

  /** A candidate with its squared distance to the target. */
  datatype Ranked = Ranked(analog: Analog, squared: real)

  /** The target features in the order of their dictionary. */
  type Target = seq<(string, real)>

  function Names(target: Target): set<string> {
    set i | 0 <= i < |target| :: target[i].0
  }

  function SquaredDistance(target: Target, features: map<string, real>): real
    requires Names(target) <= features.Keys
  {
    if target == [] then 0.0 else
    var n := |target| - 1;
    assert target[n].0 in Names(target);
    assert Names(target[..n]) <= Names(target);
    var d := features[target[n].0] - target[n].1;
    SquaredDistance(target[..n], features) + d * d
  }

  lemma DistanceOfNone(features: map<string, real>)
    ensures SquaredDistance([], features) == 0.0
  {
  }

  /** Each target feature adds the square of the difference. */
  lemma DistanceByFeature(target: Target, name: string, value: real, features: map<string, real>)
    requires Names(target + [(name, value)]) <= features.Keys
    ensures name in features && Names(target) <= features.Keys
    ensures SquaredDistance(target + [(name, value)], features) ==
      SquaredDistance(target, features) + Product(features[name] - value, features[name] - value)
  {
    var all := target + [(name, value)];
    assert all[|target|].0 in Names(all);
    assert all[..|target|] == target;
    forall n | n in Names(target) ensures n in Names(all) {
      var i :| 0 <= i < |target| && target[i].0 == n;
      assert all[i].0 == n;
    }
  }

  function Product(a: real, b: real): real {
    a * b
  }

  lemma SquareIsPositive(d: real)
    ensures d == 0.0 ==> Product(d, d) == 0.0
    ensures d != 0.0 ==> Product(d, d) > 0.0
  {
    if d > 0.0 { PositiveProduct(d, d); }
    if d < 0.0 { NegativeProduct(d, d); }
  }

  lemma PositiveProduct(a: real, b: real)
    requires a > 0.0 && b > 0.0
    ensures Product(a, b) > 0.0
  {
  }

  lemma NegativeProduct(a: real, b: real)
    requires a < 0.0 && b < 0.0
    ensures Product(a, b) > 0.0
  {
  }

  /** The squared distance is never negative, and zero exactly when every feature is that of
      the target. */
  lemma {:induction false} DistanceIsZeroIffEqual(target: Target, features: map<string, real>)
    requires Names(target) <= features.Keys
    ensures forall i | 0 <= i < |target| :: target[i].0 in features
    ensures SquaredDistance(target, features) >= 0.0
    ensures SquaredDistance(target, features) == 0.0 <==>
      forall i | 0 <= i < |target| :: features[target[i].0] == target[i].1
    decreases |target|
  {
    forall i | 0 <= i < |target| ensures target[i].0 in features { assert target[i].0 in Names(target); }
    if target != [] {
      var n := |target| - 1;
      assert Names(target[..n]) <= Names(target);
      DistanceIsZeroIffEqual(target[..n], features);
      var d := features[target[n].0] - target[n].1;
      SquareIsPositive(d);
      assert SquaredDistance(target, features) == SquaredDistance(target[..n], features) + Product(d, d);
    }
  }

  predicate IsEligible(target: Target, now: int, a: Analog) {
    a.availableAt <= now && a.features.Keys == Names(target)
  }

  function Rank(target: Target, a: Analog): Ranked {
    Ranked(a, if a.features.Keys == Names(target) then SquaredDistance(target, a.features) else 0.0)
  }

  /** Nearer first, then by event id. */
  predicate RankedLeq(a: Ranked, b: Ranked) {
    a.squared < b.squared || (a.squared == b.squared && StringLeq(a.analog.eventId, b.analog.eventId))
  }

  function RankAll(target: Target, now: int, candidates: seq<Analog>): seq<Ranked> {
    if candidates == [] then [] else
    var n := |candidates| - 1;
    RankAll(target, now, candidates[..n])
    + if IsEligible(target, now, candidates[n]) then [Rank(target, candidates[n])] else []
  }

  function Nearest(target: Target, now: int, candidates: seq<Analog>, limit: int): seq<Ranked>
    requires limit >= 1
  {
    var sorted := Sort(RankedLeq, RankAll(target, now, candidates));
    if |sorted| <= limit then sorted else sorted[..limit]
  }

  method SelectHistoricalAnalogs(target: Target, candidates: seq<Analog>, now: int, limit: int)
    returns (r: Result<seq<Ranked>, string>)
    ensures r.Ok? <==> limit >= 1
    ensures r.Ok? ==> r.value == Nearest(target, now, candidates, limit)
  {
    if limit < 1 {
      return Err("analog limit must be positive");
    }
    var ranked: seq<Ranked> := [];
    for i := 0 to |candidates|
      invariant ranked == RankAll(target, now, candidates[..i])
    {
      var candidate := candidates[i];
      assert candidates[..i + 1][..i] == candidates[..i];
      if candidate.availableAt > now {
        continue;
      }
      if candidate.features.Keys != Names(target) {
        continue;
      }
      ranked := ranked + [Ranked(candidate, SquaredDistance(target, candidate.features))];
    }
    assert candidates[..|candidates|] == candidates;
    var sorted := Sort(RankedLeq, ranked);
    return Ok(if |sorted| <= limit then sorted else sorted[..limit]);
  }

  lemma RankedAreOrdered()
    ensures IsTotal(RankedLeq) && IsTransitive(RankedLeq)
  {
    forall a, b ensures RankedLeq(a, b) || RankedLeq(b, a) { StringTotal(a.analog.eventId, b.analog.eventId); }
    forall a, b, c | RankedLeq(a, b) && RankedLeq(b, c) ensures RankedLeq(a, c) {
      var x, y, z := a.analog.eventId, b.analog.eventId, c.analog.eventId;
      if StringLeq(x, y) && StringLeq(y, z) { StringTransitive(x, y, z); }
    }
  }

  lemma {:induction false} RankAllAppend(target: Target, now: int, a: seq<Analog>, b: seq<Analog>)
    ensures RankAll(target, now, a + b) == RankAll(target, now, a) + RankAll(target, now, b)
    decreases |b|
  {
    if b == [] {
      assert a + b == a;
    } else {
      assert (a + b)[..|a + b| - 1] == a + b[..|b| - 1];
      RankAllAppend(target, now, a, b[..|b| - 1]);
    }
  }

  lemma {:induction false} NoneIsRanked(target: Target, now: int, a: seq<Analog>)
    requires forall i :: 0 <= i < |a| ==> !IsEligible(target, now, a[i])
    ensures RankAll(target, now, a) == []
    decreases |a|
  {
    if a != [] { NoneIsRanked(target, now, a[..|a| - 1]); }
  }

  /** The selection never depends on candidates from the future, nor on those that describe
      other features. */
  lemma IneligibleAnalogsAreInvisible(target: Target, now: int, before: seq<Analog>, hidden: seq<Analog>,
                                      after: seq<Analog>, limit: int)
    requires limit >= 1 && forall i :: 0 <= i < |hidden| ==> !IsEligible(target, now, hidden[i])
    ensures Nearest(target, now, before + hidden + after, limit) == Nearest(target, now, before + after, limit)
  {
    RankAllAppend(target, now, before + hidden, after);
    RankAllAppend(target, now, before, hidden);
    RankAllAppend(target, now, before, after);
    NoneIsRanked(target, now, hidden);
    assert RankAll(target, now, before) + [] == RankAll(target, now, before);
  }

  lemma SplitSorted(s: seq<Ranked>, n: nat)
    requires IsSorted(RankedLeq, s) && n <= |s|
    ensures forall k, l :: k in s[..n] && l in s[n..] ==> RankedLeq(k, l)
  {
    forall k, l | k in s[..n] && l in s[n..] ensures RankedLeq(k, l) {
      var i :| 0 <= i < n && s[..n][i] == k;
      var j :| n <= j < |s| && s[j] == l;
      assert AtMost(RankedLeq, s[..j], s[j]);
      assert s[..j][i] == k;
    }
  }

  /** The selection and the rest make up the eligible candidates; nothing left out is nearer
      than anything kept, and as many are kept as the limit allows. */
  lemma KeptAreNearest(target: Target, now: int, candidates: seq<Analog>, limit: int) returns (rest: seq<Ranked>)
    requires limit >= 1
    ensures var kept := Nearest(target, now, candidates, limit); var all := RankAll(target, now, candidates);
      && multiset(kept) + multiset(rest) == multiset(all)
      && |kept| == (if |all| <= limit then |all| else limit)
      && IsSorted(RankedLeq, kept)
      && (forall k, l :: k in kept && l in rest ==> RankedLeq(k, l) && k.squared <= l.squared)
  {
    var all := RankAll(target, now, candidates);
    var sorted := Sort(RankedLeq, all);
    RankedAreOrdered();
    SortSorts(RankedLeq, all);
    SortKeepsElements(RankedLeq, all);
    assert |sorted| == |multiset(sorted)| == |all|;
    var n := if |sorted| <= limit then |sorted| else limit;
    rest := sorted[n..];
    assert sorted == sorted[..n] + rest;
    SplitSorted(sorted, n);
    SortedPrefix(RankedLeq, sorted, n);
  }

  /** The kept ones come nearest first, and by event id at equal distance. */
  lemma KeptAreInOrder(target: Target, now: int, candidates: seq<Analog>, limit: int, i: int, j: int)
    requires limit >= 1 && 0 <= i < j < |Nearest(target, now, candidates, limit)|
    ensures var a, b := Nearest(target, now, candidates, limit)[i], Nearest(target, now, candidates, limit)[j];
      a.squared < b.squared || (a.squared == b.squared && StringLeq(a.analog.eventId, b.analog.eventId))
  {
    var rest := KeptAreNearest(target, now, candidates, limit);
    SortedInOrder(RankedLeq, Nearest(target, now, candidates, limit), i, j);
  }

  /** Exactly the available candidates with the target's feature names are ranked, each with
      its squared distance. */
  lemma {:induction false} RankedAreEligible(target: Target, now: int, candidates: seq<Analog>)
    ensures forall r :: r in RankAll(target, now, candidates) <==>
      && r.analog in candidates
      && r.analog.availableAt <= now && r.analog.features.Keys == Names(target)
      && r.squared == SquaredDistance(target, r.analog.features)
    decreases |candidates|
  {
    if candidates != [] {
      RankedAreEligible(target, now, candidates[..|candidates| - 1]);
      SplitLast(candidates);
    }
  }

  // ----- Drawdown -----

  predicate AllPositive(xs: seq<real>) {
    forall i :: 0 <= i < |xs| ==> xs[i] > 0.0
  }

  /** The relative drop from `high` to `low`. */
  function Drop(high: real, low: real): real
    requires high > 0.0
  {
    (high - low) / high
  }

  /** `d` is the largest relative drop from an element to itself or a later one. */
  ghost predicate IsMaxDrawdown(xs: seq<real>, d: real)
    requires AllPositive(xs)
  {
    && (forall i, j :: 0 <= i <= j < |xs| ==> Drop(xs[i], xs[j]) <= d)
    && (exists i, j :: 0 <= i <= j < |xs| && Drop(xs[i], xs[j]) == d)
  }

  ghost predicate IsMaximum(xs: seq<real>, m: real) {
    m in xs && forall i :: 0 <= i < |xs| ==> xs[i] <= m
  }

  lemma DropComplement(high: real, low: real)
    requires high > 0.0
    ensures (1.0 - Drop(high, low)) * high == low
  {
    assert Drop(high, low) * high == high - low;
  }

  lemma SmallerFactor(r: real, a: real, s: real, b: real)
    requires 0.0 < a <= b && r * a == s * b && s * b > 0.0
    ensures s <= r
  {
    assert r > 0.0;
    assert r * a <= r * b;
  }

  lemma DropGrowsWithHigh(a: real, b: real, low: real)
    requires 0.0 < a <= b && low > 0.0
    ensures Drop(a, low) <= Drop(b, low)
  {
    DropComplement(a, low);
    DropComplement(b, low);
    SmallerFactor(1.0 - Drop(a, low), a, 1.0 - Drop(b, low), b);
  }

  /** One more point: its drop from the highest point so far is its largest. */
  lemma DrawdownStep(xs: seq<real>, x: real, peak: real, d: real)
    requires xs != [] && AllPositive(xs + [x]) && AllPositive(xs) && IsMaximum(xs + [x], peak) && IsMaxDrawdown(xs, d)
    ensures IsMaxDrawdown(xs + [x], if d >= Drop(peak, x) then d else Drop(peak, x))
  {
    var ys := xs + [x];
    assert ys[|xs|] == x;
    var e := if d >= Drop(peak, x) then d else Drop(peak, x);
    forall i, j | 0 <= i <= j < |ys| ensures Drop(ys[i], ys[j]) <= e {
      if j == |xs| {
        DropGrowsWithHigh(ys[i], peak, x);
      } else {
        assert ys[i] == xs[i] && ys[j] == xs[j];
      }
    }
    if d >= Drop(peak, x) {
      var i, j :| 0 <= i <= j < |xs| && Drop(xs[i], xs[j]) == d;
      assert ys[i] == xs[i] && ys[j] == xs[j];
    } else {
      var i :| 0 <= i < |ys| && ys[i] == peak;
      assert ys[|xs|] == x && Drop(ys[i], ys[|xs|]) == e;
    }
  }

  datatype Metrics = Metrics(totalReturn: real, maxDrawdown: real)

  /** The sequence whose drawdown the program computes: the initial equity, then the curve
      without its first point. */
  function Measured(initial: real, curve: seq<real>): seq<real>
    requires curve != []
  {
    [initial] + curve[1..]
  }

  /** `peak` and `d` are the maximum and the largest drop of what the loop has seen. */
  ghost predicate Tracks(seen: seq<real>, peak: real, d: real) {
    AllPositive(seen) && IsMaximum(seen, peak) && IsMaxDrawdown(seen, d)
  }

  lemma TracksOne(x: real)
    requires x > 0.0
    ensures Tracks([x], x, 0.0)
  {
    assert Drop([x][0], [x][0]) == 0.0;
  }

  lemma TracksNext(seen: seq<real>, peak: real, d: real, x: real)
    requires Tracks(seen, peak, d) && x > 0.0
    ensures var top := if peak >= x then peak else x;
      Tracks(seen + [x], top, if d >= Drop(top, x) then d else Drop(top, x))
  {
    var top := if peak >= x then peak else x;
    var next := seen + [x];
    assert next[|seen|] == x;
    var i :| 0 <= i < |seen| && seen[i] == peak;
    assert next[i] == peak;
    assert IsMaximum(next, top);
    DrawdownStep(seen, x, top, d);
  }

  /** The drawdown loop of `compute_metrics`; an equity of zero before the last raises. */
  method ComputeMetrics(initial: real, curve: seq<real>) returns (r: Result<Metrics, string>)
    ensures initial <= 0.0 || curve == [] ==> r.Err?
    ensures initial > 0.0 && curve != [] && AllPositive(curve) ==>
      && r.Ok?
      && AllPositive(Measured(initial, curve)) && IsMaxDrawdown(Measured(initial, curve), r.value.maxDrawdown)
    ensures r.Ok? ==> r.value.totalReturn * initial == curve[|curve| - 1] - initial
    ensures r.Ok? ==> forall i :: 0 <= i < |curve| - 1 ==> curve[i] != 0.0
  {
    if initial <= 0.0 || curve == [] {
      return Err("positive initial equity and non-empty equity curve are required");
    }
    var totalReturn := curve[|curve| - 1] / initial - 1.0;
    assert totalReturn * initial == curve[|curve| - 1] - initial by {
      assert (curve[|curve| - 1] / initial) * initial == curve[|curve| - 1];
    }
    var peak := initial;
    var maxDrawdown := 0.0;
    ghost var seen := [initial];
    TracksOne(initial);
    for i := 1 to |curve|
      invariant seen == [initial] + curve[1..i]
      invariant peak > 0.0
      invariant AllPositive(curve) ==> Tracks(seen, peak, maxDrawdown)
      invariant forall k :: 0 <= k < i - 1 ==> curve[k] != 0.0
    {
      var previous, current := curve[i - 1], curve[i];
      if AllPositive(curve) { TracksNext(seen, peak, maxDrawdown, current); }
      seen := seen + [current];
      peak := if peak >= current then peak else current;
      maxDrawdown := if maxDrawdown >= Drop(peak, current) then maxDrawdown else Drop(peak, current);
      if previous == 0.0 {
        return Err("division by zero");
      }
    }
    assert seen == Measured(initial, curve);
    r := Ok(Metrics(totalReturn, maxDrawdown));
  }

  lemma MaxDrawdownIsUnique(xs: seq<real>, d: real, e: real)
    requires AllPositive(xs) && IsMaxDrawdown(xs, d) && IsMaxDrawdown(xs, e)
    ensures d == e
  {
  }

  predicate NeverFalls(xs: seq<real>) {
    forall i, j :: 0 <= i <= j < |xs| ==> xs[i] <= xs[j]
  }

  lemma DropSign(high: real, low: real)
    requires high > 0.0 && low > 0.0
    ensures Drop(high, low) < 1.0
    ensures Drop(high, low) > 0.0 <==> low < high
    ensures Drop(high, low) == 0.0 <==> low == high
  {
    DropComplement(high, low);
    var r := 1.0 - Drop(high, low);
    assert r > 0.0;
    assert r * high == low;
    assert r < 1.0 <==> r * high < 1.0 * high;
    assert r == 1.0 <==> r * high == 1.0 * high;
  }

  /** The drawdown lies in [0, 1), and is zero exactly when the sequence never falls. */
  lemma DrawdownRange(xs: seq<real>, d: real)
    requires AllPositive(xs) && xs != [] && IsMaxDrawdown(xs, d)
    ensures 0.0 <= d < 1.0
    ensures d == 0.0 <==> NeverFalls(xs)
  {
    DropSign(xs[0], xs[0]);
    assert Drop(xs[0], xs[0]) <= d;
    var i, j :| 0 <= i <= j < |xs| && Drop(xs[i], xs[j]) == d;
    DropSign(xs[i], xs[j]);
    forall k, l | 0 <= k <= l < |xs| && d == 0.0 ensures xs[k] <= xs[l] {
      DropSign(xs[k], xs[l]);
      assert Drop(xs[k], xs[l]) <= d;
    }
  }

  /** The measured sequence is the whole curve exactly when the curve starts at the initial equity. */
  lemma MeasuredIsCurve(initial: real, curve: seq<real>)
    requires curve != []
    ensures Measured(initial, curve) == curve <==> curve[0] == initial
  {
    assert Measured(initial, curve)[0] == initial;
    assert curve == [curve[0]] + curve[1..];
  }

  ghost predicate IsMinimum(xs: seq<real>, m: real) {
    m in xs && forall i :: 0 <= i < |xs| ==> m <= xs[i]
  }

  lemma DropGrowsAsLowFalls(high: real, a: real, b: real)
    requires high > 0.0 && a <= b
    ensures Drop(high, b) <= Drop(high, a)
  {
    DropComplement(high, a);
    DropComplement(high, b);
    if Drop(high, b) > Drop(high, a) {
      LargerFactor(1.0 - Drop(high, a), 1.0 - Drop(high, b), high);
    }
  }

  lemma LargerFactor(r: real, s: real, a: real)
    requires s < r && a > 0.0
    ensures s * a < r * a
  {
  }

  /** The drop to one low point tells the high points apart. */
  lemma DropDistinguishes(a: real, b: real, low: real)
    requires a > 0.0 && b > 0.0 && low > 0.0
    ensures Drop(a, low) == Drop(b, low) <==> a == b
  {
    DropComplement(a, low);
    DropComplement(b, low);
    DropSign(a, low);
    if a < b { LargerFactor(b, a, 1.0 - Drop(a, low)); }
    if b < a { LargerFactor(a, b, 1.0 - Drop(a, low)); }
  }

  lemma HeadPair(head: real, tail: seq<real>, t: real, low: real, i: int, j: int)
    requires head > 0.0 && AllPositive(tail) && tail != [] && IsMaxDrawdown(tail, t) && IsMinimum(tail, low)
    requires 0 <= i <= j <= |tail|
    ensures var xs := [head] + tail; xs[i] > 0.0 && (Drop(xs[i], xs[j]) <= t || Drop(xs[i], xs[j]) <= Drop(head, low))
  {
    var xs := [head] + tail;
    if i > 0 {
      assert xs[i] == tail[i - 1] && xs[j] == tail[j - 1];
    } else if j > 0 {
      DropGrowsAsLowFalls(head, low, tail[j - 1]);
    } else {
      DropSign(head, head);
      DropSign(tail[0], tail[0]);
      assert Drop(tail[0], tail[0]) <= t;
    }
  }

  /** The drawdown of a sequence is that of its tail or the drop from its head to the
      lowest point of the tail. */
  lemma DrawdownOfHead(head: real, tail: seq<real>, d: real, t: real, low: real)
    requires head > 0.0 && AllPositive([head] + tail) && AllPositive(tail) && tail != []
    requires IsMaxDrawdown([head] + tail, d) && IsMaxDrawdown(tail, t) && IsMinimum(tail, low)
    ensures d == if Drop(head, low) <= t then t else Drop(head, low)
  {
    var xs := [head] + tail;
    var i, j :| 0 <= i <= j < |xs| && Drop(xs[i], xs[j]) == d;
    HeadPair(head, tail, t, low, i, j);
    var k :| 0 <= k < |tail| && tail[k] == low;
    assert xs[0] == head && xs[k + 1] == low && Drop(xs[0], xs[k + 1]) <= d;
    TailIsNoDeeper(head, tail, d, t);
  }

  lemma TailIsNoDeeper(head: real, tail: seq<real>, d: real, t: real)
    requires AllPositive([head] + tail) && AllPositive(tail)
    requires IsMaxDrawdown([head] + tail, d) && IsMaxDrawdown(tail, t)
    ensures t <= d
  {
    var xs := [head] + tail;
    var i, j :| 0 <= i <= j < |tail| && Drop(tail[i], tail[j]) == t;
    assert xs[i + 1] == tail[i] && xs[j + 1] == tail[j];
  }

  /** The program's drawdown `d` is that of the curve, `e`, exactly when the curve starts at
      the initial equity, or when from neither start the fall to the lowest later point is
      deeper than the deepest fall within the later points. */
  lemma DrawdownsAgreeIff(initial: real, curve: seq<real>, d: real, e: real, t: real, low: real)
    requires initial > 0.0 && |curve| > 1 && AllPositive(curve) && AllPositive(curve[1..])
    requires AllPositive(Measured(initial, curve)) && IsMaxDrawdown(Measured(initial, curve), d)
    requires IsMaxDrawdown(curve, e)
    requires IsMaxDrawdown(curve[1..], t) && IsMinimum(curve[1..], low)
    ensures d == e <==> initial == curve[0] || (Drop(initial, low) <= t && Drop(curve[0], low) <= t)
  {
    var tail := curve[1..];
    assert curve == [curve[0]] + tail;
    DrawdownOfHead(initial, tail, d, t, low);
    DrawdownOfHead(curve[0], tail, e, t, low);
    DropDistinguishes(initial, curve[0], low);
  }

  /** A curve of one point has no fall either way. */
  lemma OnePointAgrees(initial: real, x: real, d: real, e: real)
    requires initial > 0.0 && x > 0.0
    requires IsMaxDrawdown(Measured(initial, [x]), d) && IsMaxDrawdown([x], e)
    ensures d == 0.0 && e == 0.0
  {
    assert Measured(initial, [x]) == [initial];
    DropSign(initial, initial);
    DropSign(x, x);
  }

  /** Otherwise a fall from the first point can go unseen: here half of it is lost. */
  lemma FirstPointCanBeMissed()
    ensures AllPositive(Measured(1.0, [2.0, 1.0])) && IsMaxDrawdown(Measured(1.0, [2.0, 1.0]), 0.0)
    ensures AllPositive([2.0, 1.0]) && IsMaxDrawdown([2.0, 1.0], 0.5)
  {
    var m := Measured(1.0, [2.0, 1.0]);
    assert m == [1.0, 1.0];
    assert Drop(m[0], m[0]) == 0.0;
    var c := [2.0, 1.0];
    assert Drop(c[0], c[1]) == 0.5;
  }

  // ----- Walk-forward windows -----

  datatype Window = Window(train: seq<int>, test: seq<int>)

  /** `max(train) < min(test)`. */
  predicate TrainsBeforeTest(w: Window) {
    forall i, j :: 0 <= i < |w.train| && 0 <= j < |w.test| ==> w.train[i] < w.test[j]
  }

  /** How many starts `range(0, n - train - test + 1, test)` has. */
  function Starts(n: nat, train: int, test: int): nat
    requires train > 0 && test > 0
  {
    if n < train + test then 0 else (n - train - test) / test + 1
  }

  lemma StartFits(n: nat, train: int, test: int, k: int)
    requires train > 0 && test > 0 && k >= 0
    ensures k < Starts(n, train, test) <==> k * test + train + test <= n
  {
    if n >= train + test {
      var m := n - train - test;
      var q := m / test;
      assert m == q * test + m % test;
      Ordered(k, q, test);
      Ordered(q + 1, k, test);
      NextStart(q, test);
    } else {
      Ordered(0, k, test);
    }
  }

  lemma Ordered(a: int, b: int, test: int)
    requires test > 0
    ensures a <= b ==> a * test <= b * test
  {
  }

  function WindowAt(ts: seq<int>, train: int, test: int, start: int): Window
    requires train > 0 && test > 0 && 0 <= start && start + train + test <= |ts|
  {
    Window(ts[start..start + train], ts[start + train..start + train + test])
  }

  /** The windows of the first `k` starts, without those whose training is not before their test. */
  function WindowsUpTo(ts: seq<int>, train: int, test: int, k: nat): seq<Window>
    requires train > 0 && test > 0 && k <= Starts(|ts|, train, test)
  {
    if k == 0 then [] else
    StartFits(|ts|, train, test, k - 1);
    var w := WindowAt(ts, train, test, (k - 1) * test);
    WindowsUpTo(ts, train, test, k - 1) + if TrainsBeforeTest(w) then [w] else []
  }

  lemma NextStart(k: nat, test: int)
    ensures (k + 1) * test == k * test + test
  {
  }

  lemma WindowsNext(ts: seq<int>, train: int, test: int, k: nat, start: int)
    requires train > 0 && test > 0 && k < Starts(|ts|, train, test) && start == k * test
    ensures 0 <= start && start + train + test <= |ts|
    ensures var w := WindowAt(ts, train, test, start);
      WindowsUpTo(ts, train, test, k + 1)
      == WindowsUpTo(ts, train, test, k) + if TrainsBeforeTest(w) then [w] else []
  {
    StartFits(|ts|, train, test, k);
  }

  lemma OneMoreStart(n: nat, train: int, test: int, k: nat, start: int)
    requires train > 0 && test > 0 && start == k * test && start < n - train - test + 1
    ensures k < Starts(n, train, test)
  {
    StartFits(n, train, test, k);
  }

  lemma NoMoreStarts(n: nat, train: int, test: int, k: nat, start: int)
    requires train > 0 && test > 0 && start == k * test && start >= n - train - test + 1 && k <= Starts(n, train, test)
    ensures k == Starts(n, train, test)
  {
    StartFits(n, train, test, k);
  }

  method WalkForwardWindows(ts: seq<int>, train: int, test: int) returns (r: Result<seq<Window>, string>)
    ensures r.Ok? <==> train > 0 && test > 0
    ensures r.Ok? ==> r.value == WindowsUpTo(ts, train, test, Starts(|ts|, train, test))
  {
    if train <= 0 || test <= 0 {
      return Err("walk-forward window sizes must be positive");
    }
    var windows: seq<Window> := [];
    var start := 0;
    ghost var k := 0;
    ghost var starts := Starts(|ts|, train, test);
    while start < |ts| - train - test + 1
      invariant start == k * test && 0 <= k <= starts
      invariant windows == WindowsUpTo(ts, train, test, k)
      decreases |ts| - start
    {
      OneMoreStart(|ts|, train, test, k, start);
      WindowsNext(ts, train, test, k, start);
      var w := Window(ts[start..start + train], ts[start + train..start + train + test]);
      if TrainsBeforeTest(w) {
        windows := windows + [w];
      }
      NextStart(k, test);
      start := start + test;
      k := k + 1;
    }
    NoMoreStarts(|ts|, train, test, k, start);
    return Ok(windows);
  }

  /** For arbitrary timestamps, every returned window trains before it tests. */
  lemma {:induction false} AllTrainBeforeTest(ts: seq<int>, train: int, test: int, k: nat)
    requires train > 0 && test > 0 && k <= Starts(|ts|, train, test)
    ensures forall w | w in WindowsUpTo(ts, train, test, k) :: forall a, b | a in w.train && b in w.test :: a < b
  {
    if k > 0 {
      AllTrainBeforeTest(ts, train, test, k - 1);
      StartFits(|ts|, train, test, k - 1);
      WindowsNext(ts, train, test, k - 1, (k - 1) * test);
    }
  }

  /** A window fits at step `i`, is the pair of its slices and trains before it tests. */
  ghost predicate IsWindowAt(ts: seq<int>, train: int, test: int, w: Window, i: int) {
    IsWindowFrom(ts, train, test, w, i * test)
  }

  ghost predicate IsWindowFrom(ts: seq<int>, train: int, test: int, w: Window, start: int) {
    && train > 0 && test > 0 && 0 <= start && start + train + test <= |ts|
    && w.train == ts[start..start + train] && w.test == ts[start + train..start + train + test]
    && forall a, b | a in w.train && b in w.test :: a < b
  }

  /** For arbitrary timestamps exactly those windows are returned that fit at a multiple of
      the test size and train before they test. */
  lemma WindowIsReturnedIff(ts: seq<int>, train: int, test: int, w: Window)
    requires train > 0 && test > 0
    ensures w in WindowsUpTo(ts, train, test, Starts(|ts|, train, test)) <==>
      exists i: nat :: IsWindowAt(ts, train, test, w, i)
  {
    WindowIsUpToIff(ts, train, test, Starts(|ts|, train, test), w);
    if i: nat :| IsWindowAt(ts, train, test, w, i) {
      StartFits(|ts|, train, test, i);
      assert i < Starts(|ts|, train, test) && IsWindowAt(ts, train, test, w, i);
    }
  }

  lemma {:induction false} WindowIsUpToIff(ts: seq<int>, train: int, test: int, k: nat, w: Window)
    requires train > 0 && test > 0 && k <= Starts(|ts|, train, test)
    ensures w in WindowsUpTo(ts, train, test, k) <==> exists i: nat | i < k :: IsWindowAt(ts, train, test, w, i)
  {
    if k > 0 {
      WindowIsUpToIff(ts, train, test, k - 1, w);
      WindowIsNextIff(ts, train, test, k - 1, (k - 1) * test, w);
      assert IsWindowAt(ts, train, test, w, k - 1) <==> IsWindowFrom(ts, train, test, w, (k - 1) * test);
    }
  }

  lemma WindowIsNextIff(ts: seq<int>, train: int, test: int, k: nat, start: int, w: Window)
    requires train > 0 && test > 0 && k < Starts(|ts|, train, test) && start == k * test
    ensures w in WindowsUpTo(ts, train, test, k + 1) <==>
      w in WindowsUpTo(ts, train, test, k) || IsWindowFrom(ts, train, test, w, start)
  {
    WindowsNext(ts, train, test, k, start);
    WindowFromIff(ts, train, test, start, w);
  }

  lemma WindowFromIff(ts: seq<int>, train: int, test: int, start: int, w: Window)
    requires train > 0 && test > 0 && 0 <= start && start + train + test <= |ts|
    ensures IsWindowFrom(ts, train, test, w, start) <==> w == WindowAt(ts, train, test, start) && TrainsBeforeTest(w)
  {
    TrainsBeforeTestMeans(w);
  }

  lemma TrainsBeforeTestMeans(w: Window)
    ensures TrainsBeforeTest(w) <==> forall a, b | a in w.train && b in w.test :: a < b
  {
    if TrainsBeforeTest(w) {
      forall a, b | a in w.train && b in w.test ensures a < b {
        var x :| 0 <= x < |w.train| && w.train[x] == a;
        var y :| 0 <= y < |w.test| && w.test[y] == b;
      }
    }
    if forall a, b | a in w.train && b in w.test :: a < b {
      forall x, y | 0 <= x < |w.train| && 0 <= y < |w.test| ensures w.train[x] < w.test[y] {
        assert w.train[x] in w.train && w.test[y] in w.test;
      }
    }
  }

  predicate StrictlyIncreasing(ts: seq<int>) {
    forall i, j :: 0 <= i < j < |ts| ==> ts[i] < ts[j]
  }

  function Tests(ws: seq<Window>): seq<int> {
    if ws == [] then [] else Tests(ws[..|ws| - 1]) + ws[|ws| - 1].test
  }

  lemma SliceTrainsFirst(ts: seq<int>, train: int, test: int, start: int)
    requires StrictlyIncreasing(ts) && train > 0 && test > 0 && 0 <= start && start + train + test <= |ts|
    ensures TrainsBeforeTest(WindowAt(ts, train, test, start))
  {
  }

  /** `w` is the slice at `start`. */
  predicate IsSliceAt(ts: seq<int>, train: int, test: int, w: Window, start: int) {
    && train > 0 && test > 0 && 0 <= start && start + train + test <= |ts|
    && w == WindowAt(ts, train, test, start)
  }

  /** Each window is the slice at its start. */
  predicate AreSlices(ts: seq<int>, train: int, test: int, ws: seq<Window>) {
    forall i :: 0 <= i < |ws| ==> IsSliceAt(ts, train, test, ws[i], i * test)
  }

  lemma SlicesSnoc(ts: seq<int>, train: int, test: int, ws: seq<Window>, w: Window)
    requires AreSlices(ts, train, test, ws) && IsSliceAt(ts, train, test, w, |ws| * test)
    ensures AreSlices(ts, train, test, ws + [w])
  {
  }

  /** For strictly increasing timestamps no window is dropped: the `i`-th is the slice at
      its start, its training part directly before its test part. */
  lemma {:induction false} WindowsAreSlices(ts: seq<int>, train: int, test: int, k: nat)
    requires train > 0 && test > 0 && k <= Starts(|ts|, train, test) && StrictlyIncreasing(ts)
    ensures var ws := WindowsUpTo(ts, train, test, k); |ws| == k && AreSlices(ts, train, test, ws)
  {
    if k > 0 {
      WindowsAreSlices(ts, train, test, k - 1);
      var w := LastWindowIsSlice(ts, train, test, k - 1, (k - 1) * test);
      SlicesSnoc(ts, train, test, WindowsUpTo(ts, train, test, k - 1), w);
    }
  }

  lemma LastWindowIsSlice(ts: seq<int>, train: int, test: int, k: nat, start: int) returns (w: Window)
    requires train > 0 && test > 0 && k < Starts(|ts|, train, test) && StrictlyIncreasing(ts) && start == k * test
    ensures IsSliceAt(ts, train, test, w, start)
    ensures WindowsUpTo(ts, train, test, k + 1) == WindowsUpTo(ts, train, test, k) + [w]
  {
    WindowsNext(ts, train, test, k, start);
    SliceTrainsFirst(ts, train, test, start);
    w := WindowAt(ts, train, test, start);
  }

  lemma TestsSnoc(ws: seq<Window>, w: Window)
    ensures Tests(ws + [w]) == Tests(ws) + w.test
  {
    assert (ws + [w])[..|ws|] == ws;
  }

  /** And the test slices are consecutive: together they are one stretch of the timestamps,
      which begins where the first training slice ends. */
  lemma {:induction false} TestsTile(ts: seq<int>, train: int, test: int, k: nat)
    requires train > 0 && test > 0 && 0 < k <= Starts(|ts|, train, test) && StrictlyIncreasing(ts)
    ensures 0 <= k * test && train + k * test <= |ts|
    ensures Tests(WindowsUpTo(ts, train, test, k)) == ts[train..train + k * test]
  {
    var start := (k - 1) * test;
    NextStart(k - 1, test);
    WindowsNext(ts, train, test, k - 1, start);
    SliceTrainsFirst(ts, train, test, start);
    var before := WindowsUpTo(ts, train, test, k - 1);
    var w := WindowAt(ts, train, test, start);
    TestsSnoc(before, w);
    if k > 1 {
      TestsTile(ts, train, test, k - 1);
      assert ts[train..train + start] + w.test == ts[train..train + start + test];
    } else {
      assert before == [] && Tests(before) == [] && [] + w.test == w.test;
    }
  }

  /** No window fits after the last one. */
  lemma NothingIsLeft(n: nat, train: int, test: int)
    requires train > 0 && test > 0
    ensures n < train + test ==> Starts(n, train, test) == 0
    ensures n >= train + test ==> n - test < train + Starts(n, train, test) * test <= n
  {
    var k := Starts(n, train, test);
    StartFits(n, train, test, k);
    if k > 0 {
      StartFits(n, train, test, k - 1);
      NextStart(k - 1, test);
    }
  }
}
