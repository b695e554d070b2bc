/** The connection supervisor (apps/worker/__main__.py): every pass discovers the
    workspaces with a verified credential and brings the running broker runtimes in line
    with the first `limit` of them. The log records when a runtime was started and when
    its stop had been awaited. */
module Supervisor {

  datatype Credential = Credential(workspace: nat, fingerprint: string)

  datatype Event = Stopped(workspace: nat) | Started(workspace: nat, fingerprint: string)

  type Runtimes = map<nat, string>

  function First(found: seq<Credential>, limit: nat): seq<Credential> {
    if |found| <= limit then found else found[..limit]
  }

  /** The discovered credentials in their order, up to the limit. */
  lemma FirstIsPrefix(found: seq<Credential>, limit: nat)
    ensures First(found, limit) <= found
    ensures |First(found, limit)| == if |found| <= limit then |found| else limit
  {
  }

  /** Credentials by workspace; a later one replaces an earlier one. */
  function Wanted(credentials: seq<Credential>): Runtimes {
    if credentials == [] then map[] else
    var last := credentials[|credentials| - 1];
    Wanted(credentials[..|credentials| - 1])[last.workspace := last.fingerprint]
  }

  function After(m: Runtimes, e: Event): Runtimes {
    match e
    case Stopped(w) => m - {w}
    case Started(w, fingerprint) => m[w := fingerprint]
  }

  /** What runs after `events` when `m` ran before them. */
  function Replay(m: Runtimes, events: seq<Event>): Runtimes {
    if events == [] then m else After(Replay(m, events[..|events| - 1]), events[|events| - 1])
  }

  function Live(log: seq<Event>): Runtimes {
    Replay(map[], log)
  }

  // ----- What one pass does -----

  predicate IsKept(before: Runtimes, wanted: Runtimes, w: nat) {
    w in before && w in wanted && before[w] == wanted[w]
  }

  /** Runtimes that are not wanted as they run. */
  function Obsolete(before: Runtimes, wanted: Runtimes): set<nat> {
    set w | w in before && !IsKept(before, wanted, w)
  }

  /** Runtimes that are wanted and do not run so. */
  function Missing(before: Runtimes, wanted: Runtimes): Runtimes {
    map w | w in wanted && !IsKept(before, wanted, w) :: wanted[w]
  }

  /** `events` stop each of `ws` once, in any order. */
  predicate Stops(events: seq<Event>, ws: set<nat>) {
    if events == [] then ws == {} else
    var last := events[|events| - 1];
    last.Stopped? && last.workspace in ws && Stops(events[..|events| - 1], ws - {last.workspace})
  }

  /** `events` start each of `m` once, in any order. */
  predicate Starts(events: seq<Event>, m: Runtimes) {
    if events == [] then m == map[] else
    var last := events[|events| - 1];
    last.Started? && last.workspace in m && m[last.workspace] == last.fingerprint
    && Starts(events[..|events| - 1], m - {last.workspace})
  }

  datatype Pass = Moves(stops: seq<Event>, starts: seq<Event>)

  /** What is obsolete is stopped before what is missing is started; the rest is left alone. */
  predicate IsPass(before: Runtimes, wanted: Runtimes, p: Pass) {
    Stops(p.stops, Obsolete(before, wanted)) && Starts(p.starts, Missing(before, wanted))
  }

  /** What the first `k` discoveries ask for. */
  function WantedAt(discoveries: seq<seq<Credential>>, limit: nat, k: nat): Runtimes
    requires k <= |discoveries|
  {
    if k == 0 then map[] else Wanted(First(discoveries[k - 1], limit))
  }

  /** A pass for each of the first discoveries. */
  predicate IsHistory(discoveries: seq<seq<Credential>>, limit: nat, passes: seq<Pass>) {
    passes == [] || (
      var n := |passes| - 1;
      && n < |discoveries| && IsHistory(discoveries, limit, passes[..n])
      && IsPass(WantedAt(discoveries, limit, n), WantedAt(discoveries, limit, n + 1), passes[n]))
  }

  function Log(passes: seq<Pass>): seq<Event> {
    if passes == [] then [] else
    var last := passes[|passes| - 1];
    Log(passes[..|passes| - 1]) + (last.stops + last.starts)
  }

  // ----- What a log promises -----

  /** Only what runs is stopped, and only what does not run is started. */
  predicate IsOrderly(before: Runtimes, e: Event) {
    match e
    case Stopped(w) => w in before
    case Started(w, _) => w !in before
  }

  predicate IsSafe(m: Runtimes, events: seq<Event>, limit: nat) {
    if events == [] then |m| <= limit else
    var front, last := events[..|events| - 1], events[|events| - 1];
    IsSafe(m, front, limit) && IsOrderly(Replay(m, front), last) && |Replay(m, events)| <= limit
  }

  /** A safe log is safe at every moment, in the middle of a pass too. */
  lemma {:induction false} SafeAtEveryMoment(log: seq<Event>, limit: nat, k: nat)
    requires IsSafe(map[], log, limit) && k <= |log|
    ensures |Live(log[..k])| <= limit
    ensures k < |log| ==> IsOrderly(Live(log[..k]), log[k])
    decreases |log|
  {
    if k == |log| {
      assert log[..k] == log;
    } else if k < |log| - 1 {
      SafeAtEveryMoment(log[..|log| - 1], limit, k);
      assert log[..|log| - 1][..k] == log[..k];
    } else {
      SafeAtEveryMoment(log[..k], limit, k);
      assert log[..k][..k] == log[..k];
    }
  }

  lemma ReplaySnoc(m: Runtimes, events: seq<Event>, e: Event)
    ensures Replay(m, events + [e]) == After(Replay(m, events), e)
  {
    assert (events + [e])[..|events|] == events;
  }

  lemma {:induction false} ReplayAppend(m: Runtimes, a: seq<Event>, b: seq<Event>, limit: nat)
    ensures Replay(m, a + b) == Replay(Replay(m, a), b)
    ensures IsSafe(m, a, limit) && IsSafe(Replay(m, a), b, limit) ==> IsSafe(m, a + b, limit)
    decreases |b|
  {
    if b == [] {
      assert a + b == a;
    } else {
      var front, last := b[..|b| - 1], b[|b| - 1];
      ReplayAppend(m, a, front, limit);
      assert (a + b)[..|a + b| - 1] == a + front && (a + b)[|a + b| - 1] == last;
    }
  }

  lemma {:induction false} WantedIsWithinLimit(credentials: seq<Credential>)
    ensures |Wanted(credentials)| <= |credentials|
  {
    if credentials != [] {
      var front, last := credentials[..|credentials| - 1], credentials[|credentials| - 1];
      WantedIsWithinLimit(front);
      if last.workspace in Wanted(front) {
        assert Wanted(credentials).Keys == Wanted(front).Keys;
      } else {
        assert Wanted(credentials).Keys == Wanted(front).Keys + {last.workspace};
      }
    }
  }

  /** With one credential per workspace, the wanted runtimes are exactly the discovered ones. */
  lemma {:induction false} WantedAreTheDiscovered(credentials: seq<Credential>)
    requires forall i, j | 0 <= i < j < |credentials| :: credentials[i].workspace != credentials[j].workspace
    ensures forall w, f :: w in Wanted(credentials) && Wanted(credentials)[w] == f <==> Credential(w, f) in credentials
    ensures |Wanted(credentials)| == |credentials|
  {
    if credentials != [] {
      var front, last := credentials[..|credentials| - 1], credentials[|credentials| - 1];
      WantedAreTheDiscovered(front);
      assert credentials == front + [last];
      WantedComesOnly(front, last.workspace);
      assert Wanted(credentials).Keys == Wanted(front).Keys + {last.workspace};
    }
  }

  lemma WantedComesOnly(credentials: seq<Credential>, w: nat)
    requires forall i | 0 <= i < |credentials| :: credentials[i].workspace != w
    ensures w !in Wanted(credentials)
  {
    if w in Wanted(credentials) { WantedComes(credentials, w); }
  }

  lemma SubsetIsSmaller(a: set<nat>, b: set<nat>)
    requires a <= b
    ensures |a| <= |b|
  {
    assert b == a + (b - a);
  }

  // ----- Every pass is safe and converges -----

  lemma {:induction false} StopsAreSafe(m: Runtimes, stops: seq<Event>, ws: set<nat>, limit: nat)
    requires Stops(stops, ws) && ws <= m.Keys && |m| <= limit
    ensures IsSafe(m, stops, limit) && Replay(m, stops) == m - ws
  {
    if stops != [] {
      var front, last := stops[..|stops| - 1], stops[|stops| - 1];
      StopsAreSafe(m, front, ws - {last.workspace}, limit);
      assert Replay(m, stops) == m - ws;
      SubsetIsSmaller((m - ws).Keys, m.Keys);
    }
  }

  lemma AddLast(m: Runtimes, missing: Runtimes, w: nat)
    requires w in missing
    ensures (m + (missing - {w}))[w := missing[w]] == m + missing
    ensures (m + missing).Keys == m.Keys + missing.Keys
    ensures |m.Keys + (missing - {w}).Keys| <= |m.Keys + missing.Keys|
  {
    SubsetIsSmaller(m.Keys + (missing - {w}).Keys, m.Keys + missing.Keys);
  }

  lemma {:induction false} StartsAreSafe(m: Runtimes, starts: seq<Event>, missing: Runtimes, limit: nat)
    requires Starts(starts, missing) && missing.Keys !! m.Keys && |m.Keys + missing.Keys| <= limit
    ensures IsSafe(m, starts, limit) && Replay(m, starts) == m + missing
  {
    if starts == [] {
      SubsetIsSmaller(m.Keys, m.Keys + missing.Keys);
    } else {
      var front, last := starts[..|starts| - 1], starts[|starts| - 1];
      AddLast(m, missing, last.workspace);
      StartsAreSafe(m, front, missing - {last.workspace}, limit);
    }
  }

  /** What is kept and what is missing make up what is wanted. */
  lemma KeptAndMissing(before: Runtimes, wanted: Runtimes)
    ensures var kept := before - Obsolete(before, wanted); var missing := Missing(before, wanted);
      kept + missing == wanted && kept.Keys + missing.Keys == wanted.Keys && kept.Keys !! missing.Keys
      && wanted - kept.Keys == missing
  {
  }

  lemma StopsThenStarts(before: Runtimes, ws: set<nat>, missing: Runtimes, wanted: Runtimes,
                        stops: seq<Event>, starts: seq<Event>, limit: nat)
    requires Stops(stops, ws) && ws <= before.Keys && Starts(starts, missing)
    requires |before| <= limit && |wanted| <= limit
    requires (before - ws) + missing == wanted && (before - ws).Keys + missing.Keys == wanted.Keys
    requires (before - ws).Keys !! missing.Keys
    ensures IsSafe(before, stops + starts, limit) && Replay(before, stops + starts) == wanted
  {
    StopsAreSafe(before, stops, ws, limit);
    StartsAreSafe(before - ws, starts, missing, limit);
    ReplayAppend(before, stops, starts, limit);
  }

  /** After a pass exactly the wanted runtimes run, with their fingerprints, and in the
      middle of it too there run no more than the limit. */
  lemma PassIsSafe(before: Runtimes, wanted: Runtimes, p: Pass, limit: nat)
    requires IsPass(before, wanted, p) && |before| <= limit && |wanted| <= limit
    ensures IsSafe(before, p.stops + p.starts, limit) && Replay(before, p.stops + p.starts) == wanted
  {
    KeptAndMissing(before, wanted);
    StopsThenStarts(before, Obsolete(before, wanted), Missing(before, wanted), wanted, p.stops, p.starts, limit);
  }

  lemma PassAfter(log: seq<Event>, before: Runtimes, wanted: Runtimes, p: Pass, limit: nat)
    requires Live(log) == before && |before| <= limit && |wanted| <= limit && IsPass(before, wanted, p)
    ensures Live(log + (p.stops + p.starts)) == wanted
    ensures IsSafe(map[], log, limit) ==> IsSafe(map[], log + (p.stops + p.starts), limit)
  {
    PassIsSafe(before, wanted, p, limit);
    ReplayAppend(map[], log, p.stops + p.starts, limit);
  }

  // ----- Every history is safe and converges -----

  lemma WantedAtIsWithinLimit(discoveries: seq<seq<Credential>>, limit: nat, k: nat)
    requires k <= |discoveries|
    ensures |WantedAt(discoveries, limit, k)| <= limit
  {
    if k > 0 { WantedIsWithinLimit(First(discoveries[k - 1], limit)); }
  }

  /** After the first passes of a history the runtimes are those that the last of their
      discoveries asks for. */
  lemma {:induction false} HistoryConverges(discoveries: seq<seq<Credential>>, limit: nat, passes: seq<Pass>)
    requires IsHistory(discoveries, limit, passes)
    ensures Live(Log(passes)) == WantedAt(discoveries, limit, |passes|)
    decreases |passes|
  {
    if passes != [] {
      assert |passes[..|passes| - 1]| == |passes| - 1;
      HistoryConverges(discoveries, limit, passes[..|passes| - 1]);
      LastPassIsSafe(discoveries, limit, passes);
    }
  }

  /** Over any discoveries: never more than the limit run, and nothing is started while it
      runs or stopped while it does not; after each pass the runtimes are those wanted. */
  lemma {:induction false} HistoryIsSafe(discoveries: seq<seq<Credential>>, limit: nat, passes: seq<Pass>)
    requires IsHistory(discoveries, limit, passes)
    ensures IsSafe(map[], Log(passes), limit)
    ensures Live(Log(passes)) == WantedAt(discoveries, limit, |passes|)
    decreases |passes|
  {
    HistoryConverges(discoveries, limit, passes);
    if passes != [] {
      assert |passes[..|passes| - 1]| == |passes| - 1;
      HistoryIsSafe(discoveries, limit, passes[..|passes| - 1]);
      LastPassIsSafe(discoveries, limit, passes);
    }
  }

  lemma LastPassIsSafe(discoveries: seq<seq<Credential>>, limit: nat, passes: seq<Pass>)
    requires passes != [] && IsHistory(discoveries, limit, passes)
    requires Live(Log(passes[..|passes| - 1])) == WantedAt(discoveries, limit, |passes| - 1)
    ensures Live(Log(passes)) == WantedAt(discoveries, limit, |passes|)
    ensures IsSafe(map[], Log(passes[..|passes| - 1]), limit) ==> IsSafe(map[], Log(passes), limit)
  {
    var n := |passes| - 1;
    WantedAtIsWithinLimit(discoveries, limit, n);
    WantedAtIsWithinLimit(discoveries, limit, n + 1);
    PassAfter(Log(passes[..n]), WantedAt(discoveries, limit, n), WantedAt(discoveries, limit, n + 1), passes[n], limit);
  }

  /** At no moment of a history, in the middle of a pass too, do more than `limit` run. */
  lemma LimitHoldsAlways(discoveries: seq<seq<Credential>>, limit: nat, passes: seq<Pass>, k: nat)
    requires IsHistory(discoveries, limit, passes) && k <= |Log(passes)|
    ensures |Live(Log(passes)[..k])| <= limit
  {
    HistoryIsSafe(discoveries, limit, passes);
    SafeAtEveryMoment(Log(passes), limit, k);
  }

  lemma {:induction false} SafePrefix(log: seq<Event>, limit: nat, k: nat)
    requires IsSafe(map[], log, limit) && k <= |log|
    ensures IsSafe(map[], log[..k], limit)
    decreases |log|
  {
    if k == |log| {
      assert log[..k] == log;
    } else {
      SafePrefix(log[..|log| - 1], limit, k);
      assert log[..|log| - 1][..k] == log[..k];
    }
  }

  /** Cut anywhere, in the middle of a pass too, and followed by a stop of all that runs,
      a history stays safe and leaves nothing running. */
  lemma InterruptionStopsAll(discoveries: seq<seq<Credential>>, limit: nat, passes: seq<Pass>, k: nat,
                             stops: seq<Event>)
    requires IsHistory(discoveries, limit, passes) && k <= |Log(passes)|
    requires Stops(stops, Live(Log(passes)[..k]).Keys)
    ensures IsSafe(map[], Log(passes)[..k] + stops, limit) && Live(Log(passes)[..k] + stops) == map[]
  {
    HistoryIsSafe(discoveries, limit, passes);
    CutIsSafe(Log(passes), limit, k, stops);
  }

  lemma CutIsSafe(log: seq<Event>, limit: nat, k: nat, stops: seq<Event>)
    requires IsSafe(map[], log, limit) && k <= |log| && Stops(stops, Live(log[..k]).Keys)
    ensures IsSafe(map[], log[..k] + stops, limit) && Live(log[..k] + stops) == map[]
  {
    var before := Live(log[..k]);
    SafePrefix(log, limit, k);
    SafeAtEveryMoment(log, limit, k);
    StopsAreSafe(before, stops, before.Keys, limit);
    ReplayAppend(map[], log[..k], stops, limit);
    assert before - before.Keys == map[];
  }

  lemma LogSnoc(passes: seq<Pass>, p: Pass)
    ensures Log(passes + [p]) == Log(passes) + (p.stops + p.starts)
  {
    assert (passes + [p])[..|passes|] == passes;
  }

  /** Between two starts for a workspace its old runtime was stopped. */
  lemma StoppedBetweenStarts(log: seq<Event>, limit: nat, i: nat, j: nat)
    requires IsSafe(map[], log, limit) && i < j < |log|
    requires log[i].Started? && log[j].Started? && log[i].workspace == log[j].workspace
    ensures exists k | i < k < j :: log[k] == Stopped(log[i].workspace)
  {
    var w := log[i].workspace;
    StartedIsLive(log, i);
    SafeAtEveryMoment(log, limit, j);
    assert w !in Live(log[..j]);
    if forall k | i < k < j :: log[k] != Stopped(w) {
      StaysLive(log, i + 1, j, w);
      assert false;
    }
  }

  lemma StartedIsLive(log: seq<Event>, i: nat)
    requires i < |log| && log[i].Started?
    ensures log[i].workspace in Live(log[..i + 1])
  {
    ReplaySnoc(map[], log[..i], log[i]);
    assert log[..i + 1] == log[..i] + [log[i]];
  }

  lemma {:induction false} StaysLive(log: seq<Event>, i: nat, j: nat, w: nat)
    requires i <= j <= |log| && w in Live(log[..i])
    requires forall k | i <= k < j :: log[k] != Stopped(w)
    ensures w in Live(log[..j])
    decreases j
  {
    if i < j {
      StaysLive(log, i, j - 1, w);
      ReplaySnoc(map[], log[..j - 1], log[j - 1]);
      assert log[..j] == log[..j - 1] + [log[j - 1]];
    }
  }

  /** A pass that finds what already runs does nothing. */
  lemma SteadyPassIsQuiet(now: Runtimes, p: Pass)
    requires IsPass(now, now, p)
    ensures p == Moves([], [])
  {
    assert Obsolete(now, now) == {} && Missing(now, now) == map[];
  }

  // ----- The supervisor -----

  class ConnectionSupervisor {
    var runtimes: Runtimes
    ghost var log: seq<Event>

    ghost predicate Valid() reads this { runtimes == Live(log) }

    constructor ()
      ensures Valid() && runtimes == map[] && log == []
    {
      runtimes, log := map[], [];
    }

    /** Stops, in any order, what is not wanted as it runs. */
    method StopObsolete(wanted: Runtimes) returns (ghost stops: seq<Event>)
      requires Valid()
      modifies this
      ensures Valid() && log == old(log) + stops
      ensures Stops(stops, Obsolete(old(runtimes), wanted))
      ensures runtimes == old(runtimes) - Obsolete(old(runtimes), wanted)
    {
      ghost var was := log;
      var before := runtimes;
      ghost var obsolete := Obsolete(before, wanted);
      var todo := before.Keys;
      stops := [];
      assert obsolete - todo == {};
      assert was + stops == was;
      while todo != {}
        invariant todo <= before.Keys && log == was + stops
        invariant Stopping(before, obsolete - todo, was, stops, runtimes)
        decreases |todo|
      {
        var w :| w in todo;
        ObsoleteMeans(before, wanted, w);
        StopStep(before, obsolete, todo, was, stops, runtimes, w);
        if w !in wanted || wanted[w] != before[w] {
          stops, log := stops + [Stopped(w)], log + [Stopped(w)];
          runtimes := runtimes - {w};
        }
        todo := todo - {w};
      }
      assert obsolete - todo == obsolete;
    }

    /** Starts, in the order discovered, what is wanted and does not run. */
    method StartMissing(credentials: seq<Credential>, wanted: Runtimes) returns (ghost starts: seq<Event>)
      requires Valid() && wanted == Wanted(credentials)
      modifies this
      ensures Valid() && log == old(log) + starts
      ensures Starts(starts, wanted - old(runtimes).Keys)
      ensures runtimes == old(runtimes) + (wanted - old(runtimes).Keys)
    {
      ghost var was := log;
      ghost var before := runtimes;
      ghost var added: Runtimes := map[];
      starts := [];
      assert was + starts == was && before + added == before;
      var i := 0;
      while i < |credentials|
        invariant 0 <= i <= |credentials| && log == was + starts
        invariant Starting(before, wanted, added, was, starts, runtimes)
        invariant forall k | 0 <= k < i :: credentials[k].workspace in runtimes
      {
        var w := credentials[i].workspace;
        WantedHas(credentials, i);
        if w !in runtimes {
          StartStep(before, wanted, added, was, starts, runtimes, w);
          added := added[w := wanted[w]];
          starts, log := starts + [Started(w, wanted[w])], log + [Started(w, wanted[w])];
          runtimes := runtimes[w := wanted[w]];
        }
        i := i + 1;
      }
      AllStarted(before, credentials, added, runtimes);
    }

    /** One pass. */
    method Pass(found: seq<Credential>, limit: nat) returns (ghost p: Pass)
      requires Valid()
      modifies this
      ensures Valid() && log == old(log) + (p.stops + p.starts)
      ensures runtimes == Wanted(First(found, limit))
      ensures runtimes == Wanted(found[..if |found| <= limit then |found| else limit])
      ensures IsPass(old(runtimes), Wanted(First(found, limit)), p)
    {
      FirstIsPrefix(found, limit);
      assert found[..|found|] == found;
      var credentials := First(found, limit);
      var wanted := ByWorkspace(credentials);
      KeptAndMissing(runtimes, wanted);
      ghost var stops := StopObsolete(wanted);
      ghost var starts := StartMissing(credentials, wanted);
      p := Moves(stops, starts);
    }

    /** The dictionary of the discovered credentials. */
    method ByWorkspace(credentials: seq<Credential>) returns (wanted: Runtimes)
      ensures wanted == Wanted(credentials)
    {
      wanted := map[];
      for i := 0 to |credentials|
        invariant wanted == Wanted(credentials[..i])
      {
        assert credentials[..i + 1][..i] == credentials[..i];
        wanted := wanted[credentials[i].workspace := credentials[i].fingerprint];
      }
      assert credentials[..|credentials|] == credentials;
    }

    /** The `finally` block, from whatever state: stops everything. */
    method StopAll() returns (ghost stops: seq<Event>)
      requires Valid()
      modifies this
      ensures Valid() && log == old(log) + stops && runtimes == map[]
      ensures Stops(stops, old(runtimes).Keys)
    {
      StoppingAllIsAPass(runtimes);
      stops := StopObsolete(map[]);
    }

    /** Passes until the worker is told to stop, then stops everything, as a pass that
        discovers nothing would. */
    method Supervise(discoveries: seq<seq<Credential>>, limit: nat) returns (ghost passes: seq<Pass>)
      requires Valid() && log == []
      modifies this
      ensures Valid() && runtimes == map[] && log == Log(passes)
      ensures |passes| == |discoveries| + 1 && IsHistory(discoveries + [[]], limit, passes)
    {
      ghost var all := discoveries + [[]];
      passes := [];
      var k := 0;
      while k < |discoveries|
        invariant 0 <= k <= |discoveries| && k == |passes|
        invariant Valid() && log == Log(passes)
        invariant IsHistory(all, limit, passes) && runtimes == WantedAt(all, limit, k)
      {
        ghost var p := Pass(discoveries[k], limit);
        HistoryGrows(all, limit, passes, p);
        LogSnoc(passes, p);
        passes := passes + [p];
        k := k + 1;
      }
      StoppingAllIsAPass(runtimes);
      ghost var stops := StopAll();
      HistoryGrows(all, limit, passes, Moves(stops, []));
      LogSnoc(passes, Moves(stops, []));
      passes := passes + [Moves(stops, [])];
    }
  }

  /** `gone` has been stopped. */
  predicate Stopping(before: Runtimes, gone: set<nat>, was: seq<Event>, stops: seq<Event>, now: Runtimes) {
    Stops(stops, gone) && now == before - gone && now == Live(was + stops)
  }

  lemma ObsoleteMeans(before: Runtimes, wanted: Runtimes, w: nat)
    requires w in before
    ensures w in Obsolete(before, wanted) <==> w !in wanted || wanted[w] != before[w]
  {
  }

  /** What is obsolete among the rest is stopped when it is looked at. */
  lemma StopStep(before: Runtimes, obsolete: set<nat>, todo: set<nat>, was: seq<Event>, stops: seq<Event>,
                 now: Runtimes, w: nat)
    requires Stopping(before, obsolete - todo, was, stops, now) && w in todo && w in before
    ensures (was + stops) + [Stopped(w)] == was + (stops + [Stopped(w)])
    ensures if w in obsolete then Stopping(before, obsolete - (todo - {w}), was, stops + [Stopped(w)], now - {w})
            else Stopping(before, obsolete - (todo - {w}), was, stops, now)
  {
    var gone := obsolete - todo;
    if w in obsolete {
      StopsSnoc(was, stops, gone, w);
      assert obsolete - (todo - {w}) == gone + {w};
      assert (before - gone) - {w} == before - (gone + {w});
    } else {
      assert obsolete - (todo - {w}) == gone;
    }
  }

  lemma StopsSnoc(was: seq<Event>, stops: seq<Event>, gone: set<nat>, w: nat)
    requires Stops(stops, gone) && w !in gone
    ensures Stops(stops + [Stopped(w)], gone + {w})
    ensures was + (stops + [Stopped(w)]) == (was + stops) + [Stopped(w)]
    ensures Live((was + stops) + [Stopped(w)]) == Live(was + stops) - {w}
  {
    ReplaySnoc(map[], was + stops, Stopped(w));
    assert (stops + [Stopped(w)])[..|stops|] == stops;
    assert (gone + {w}) - {w} == gone;
  }

  /** `added` has been started. */
  ghost predicate Starting(before: Runtimes, wanted: Runtimes, added: Runtimes, was: seq<Event>,
                           starts: seq<Event>, now: Runtimes)
  {
    && Starts(starts, added) && added.Keys !! before.Keys
    && (forall w | w in added :: w in wanted && added[w] == wanted[w])
    && now == before + added && now == Live(was + starts)
  }

  lemma StartStep(before: Runtimes, wanted: Runtimes, added: Runtimes, was: seq<Event>, starts: seq<Event>,
                  now: Runtimes, w: nat)
    requires Starting(before, wanted, added, was, starts, now) && w in wanted && w !in now
    ensures (was + starts) + [Started(w, wanted[w])] == was + (starts + [Started(w, wanted[w])])
    ensures Starting(before, wanted, added[w := wanted[w]], was, starts + [Started(w, wanted[w])], now[w := wanted[w]])
  {
    StartsSnoc(was, starts, added, w, wanted[w]);
    assert (before + added)[w := wanted[w]] == before + added[w := wanted[w]];
  }

  lemma AllStarted(before: Runtimes, credentials: seq<Credential>, added: Runtimes, now: Runtimes)
    requires forall k | 0 <= k < |credentials| :: credentials[k].workspace in now
    requires now == before + added && added.Keys !! before.Keys
    requires forall w | w in added :: w in Wanted(credentials) && added[w] == Wanted(credentials)[w]
    ensures added == Wanted(credentials) - before.Keys
  {
    forall w | w in Wanted(credentials) ensures w in now { WantedComes(credentials, w); }
  }

  lemma StartsSnoc(was: seq<Event>, starts: seq<Event>, added: Runtimes, w: nat, fingerprint: string)
    requires Starts(starts, added) && w !in added
    ensures Starts(starts + [Started(w, fingerprint)], added[w := fingerprint])
    ensures was + (starts + [Started(w, fingerprint)]) == (was + starts) + [Started(w, fingerprint)]
    ensures Live((was + starts) + [Started(w, fingerprint)]) == Live(was + starts)[w := fingerprint]
  {
    ReplaySnoc(map[], was + starts, Started(w, fingerprint));
    assert (starts + [Started(w, fingerprint)])[..|starts|] == starts;
    assert added[w := fingerprint] - {w} == added;
  }

  lemma StoppingAllIsAPass(before: Runtimes)
    ensures Missing(before, map[]) == map[] && Obsolete(before, map[]) == before.Keys && before - before.Keys == map[]
  {
  }

  lemma HistoryGrows(discoveries: seq<seq<Credential>>, limit: nat, passes: seq<Pass>, p: Pass)
    requires IsHistory(discoveries, limit, passes) && |passes| < |discoveries|
    requires IsPass(WantedAt(discoveries, limit, |passes|), WantedAt(discoveries, limit, |passes| + 1), p)
    ensures IsHistory(discoveries, limit, passes + [p])
  {
    var all := passes + [p];
    assert all[..|all| - 1] == passes && all[|all| - 1] == p;
    LastPass(discoveries, limit, all);
  }

  lemma LastPass(discoveries: seq<seq<Credential>>, limit: nat, all: seq<Pass>)
    requires 0 < |all| <= |discoveries| && IsHistory(discoveries, limit, all[..|all| - 1])
    requires IsPass(WantedAt(discoveries, limit, |all| - 1), WantedAt(discoveries, limit, |all|), all[|all| - 1])
    ensures IsHistory(discoveries, limit, all)
  {
  }

  lemma {:induction false} WantedHas(credentials: seq<Credential>, i: nat)
    requires i < |credentials|
    ensures credentials[i].workspace in Wanted(credentials)
  {
    var front := credentials[..|credentials| - 1];
    if i < |front| { WantedHas(front, i); assert front[i] == credentials[i]; }
  }

  lemma {:induction false} WantedComes(credentials: seq<Credential>, w: nat)
    requires w in Wanted(credentials)
    ensures exists i | 0 <= i < |credentials| :: credentials[i].workspace == w
  {
    var front, last := credentials[..|credentials| - 1], credentials[|credentials| - 1];
    if last.workspace != w {
      WantedComes(front, w);
      var i :| 0 <= i < |front| && front[i].workspace == w;
      assert credentials[i].workspace == w;
    }
  }
}
