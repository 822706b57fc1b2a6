/**
 * The router: a cached copy of the record, a freshness and lease check before
 * every choice, and the weighted splitter. A request takes the lock twice, for
 * the check and for the choice; anything can happen in between.
 */
module Routing {
  import opened Bounded
  import opened ReleaseState
  import opened Lifecycle
  import opened Splitting
  import Cluster
  import Decisions
  import Runs

  const FRESH: Time := 10.0

  /** The fields of the router: nothing cached at first, and a revision that no route has. */
  datatype Cache = Cache(state: Option<State>, updated: Time, sequence: nat, revision: int)

  const EMPTY: Cache := Cache(None, 0.0, 0, -1)

  datatype Report = Report(ready: bool, weight: nat, revision: int)

  function Put(c: Cache, s: State, now: Time): Cache {
    Cache(Some(s), now, if s.route.revision != c.revision then 0 else c.sequence, s.route.revision)
  }

  /** `now` and `later` are the two clock readings made under the lock. */
  predicate Ready(c: Cache, now: Time, later: Time) {
    && c.state.Some?
    && now - c.updated <= FRESH
    && (c.state.value.active.Some? ==> c.state.value.lease.Some? && c.state.value.lease.value.until > later)
  }

  function StatusOf(c: Cache, now: Time, later: Time): Report {
    if c.state.None? then Report(false, 0, -1)
    else if Ready(c, now, later) then Report(true, c.state.value.route.weight, c.revision)
    else Report(false, 0, c.revision)
  }

  /** What other threads do between the two locks of one request. */
  datatype Meanwhile = Cached(s: State, now: Time) | Taken

  function Interleave(c: Cache, ms: seq<Meanwhile>): Cache {
    if ms == [] then c
    else
      var before := Interleave(c, ms[..|ms| - 1]);
      match ms[|ms| - 1]
      case Cached(s, now) => Put(before, s, now)
      case Taken => before.(sequence := before.sequence + 1)
  }

  class Router {
    var state: Option<State>
    var updated: Time
    var sequence: nat
    var revision: int

    function View(): Cache
      reads this
    {
      Cache(state, updated, sequence, revision)
    }

    constructor ()
      ensures View() == EMPTY
    {
      state, updated, sequence, revision := None, 0.0, 0, -1;
    }

    method Set(s: State, now: Time)
      modifies this
      ensures View() == Put(old(View()), s, now)
    {
      if s.route.revision != revision {
        sequence := 0;
        revision := s.route.revision;
      }
      state := Some(s);
      updated := now;
    }

    method Status(now: Time, later: Time) returns (report: Report)
      ensures report == StatusOf(View(), now, later)
      ensures report.ready <==>
                && state.Some? && now <= updated + 10.0
                && (state.value.active.None? || (state.value.lease.Some? && later < state.value.lease.value.until))
      ensures report.weight == if report.ready then state.value.route.weight else 0
    {
      var age := now - updated;
      if state.None? {
        return Report(false, 0, -1);
      }
      var active, lease := state.value.active, state.value.lease;
      var ready := age <= FRESH && (active.None? || (lease.Some? && lease.value.until > later));
      var weight := if ready then state.value.route.weight else 0;
      return Report(ready, weight, revision);
    }

    method Serve(m: Meanwhile)
      modifies this
      ensures View() == Interleave(old(View()), [m])
    {
      assert [m][..0] == [];
      match m {
        case Cached(s, now) => Set(s, now);
        case Taken => sequence := sequence + 1;
      }
    }

    /** The weight is that of the check, the index that of the choice. */
    method Choose(now: Time, later: Time, between: seq<Meanwhile>) returns (track: Option<Track>)
      modifies this
      ensures track.None? <==> !Ready(old(View()), now, later)
      ensures old(state.Some? && now <= updated + 10.0 && state.value.active.None?) ==> track.Some?
      ensures track.None? ==> View() == old(View())
      ensures track.Some? ==>
                var met := Interleave(old(View()), between);
                && track.value == ChooseTrack(met.sequence, StatusOf(old(View()), now, later).weight)
                && View() == met.(sequence := met.sequence + 1)
    {
      var status := Status(now, later);
      if !status.ready {
        return None;
      }
      assert between[..0] == [];
      for i := 0 to |between|
        invariant View() == Interleave(old(View()), between[..i])
      {
        assert between[..i + 1][..i] == between[..i];
        Serve(between[i]);
        assert [between[i]][..0] == [];
      }
      assert between[..|between|] == between;
      track := Some(ChooseTrack(sequence, status.weight));
      sequence := sequence + 1;
    }
  }

  // ----- runs of the router ---------------------------------------------------------------

  /** Install: record `source` was read at `readAt` and cached at `now`. A request is a Check, then a Decide. */
  datatype Act =
    | Install(source: nat, readAt: Time, now: Time)
    | Check(id: nat, now: Time, later: Time)
    | Decide(id: nat)

  /** What a request that passed its check carries to its choice, and which record that was. */
  datatype Checked = Checked(weight: nat, revision: int, source: nat, readAt: Time, now: Time, later: Time)

  /** The cache, the choices since its revision last changed, where its record came from, and the checked requests. */
  datatype Served = Served(cache: Cache, picks: seq<Track>, source: nat, readAt: Time, clock: Time,
                           open: map<nat, Checked>)

  function Serve(states: seq<State>, v: Served, act: Act): Served
    requires act.Install? ==> act.source < |states|
  {
    match act
    case Install(source, readAt, now) =>
      var next := Put(v.cache, states[source], now);
      Served(next, if next.revision != v.cache.revision then [] else v.picks, source, readAt, now, v.open)
    case Check(id, now, later) =>
      var status := StatusOf(v.cache, now, later);
      v.(clock := later,
         open := if status.ready
                 then v.open[id := Checked(status.weight, status.revision, v.source, v.readAt, now, later)]
                 else v.open - {id})
    case Decide(id) =>
      if id !in v.open then v
      else
        v.(cache := v.cache.(sequence := v.cache.sequence + 1), open := v.open - {id},
           picks := v.picks + [ChooseTrack(v.cache.sequence, v.open[id].weight)])
  }

  /** The choice that this act makes, if any. */
  function Chosen(v: Served, act: Act): Option<Track> {
    if act.Decide? && act.id in v.open then Some(ChooseTrack(v.cache.sequence, v.open[act.id].weight)) else None
  }

  /** The durable records of a run, each from its commit time on until the next one. */
  ghost predicate IsTimeline(p: Decisions.Policy, stable: Option<Serving>, ys: seq<Cluster.Sys>, ls: seq<Cluster.Label>,
                             times: seq<Time>)
  {
    && Runs.IsRun(p, stable, ys, ls)
    && |times| == |ys|
    && forall i, j :: 0 <= i < j < |times| ==> times[i] <= times[j]
  }

  predicate Durable(times: seq<Time>, i: nat, at: Time) {
    i < |times| && times[i] <= at && (i + 1 < |times| ==> at <= times[i + 1])
  }

  function StatesOf(ys: seq<Cluster.Sys>): (ss: seq<State>)
    ensures |ss| == |ys| && forall i :: 0 <= i < |ys| ==> ss[i] == ys[i].w.s
  {
    seq(|ys|, i requires 0 <= i < |ys| => ys[i].w.s)
  }

  /** Reads return a record that was durable when it was read, and are cached within `delay`; clocks do not go back. */
  ghost predicate Reads(times: seq<Time>, delay: Time, v: Served, act: Act) {
    match act
    case Install(source, readAt, now) =>
      Durable(times, source, readAt) && readAt <= now <= readAt + delay && v.clock <= now
    case Check(_, now, later) => v.clock <= now <= later
    case Decide(_) => true
  }

  ghost predicate IsService(states: seq<State>, times: seq<Time>, delay: Time, acts: seq<Act>, vs: seq<Served>) {
    && |times| == |states|
    && |vs| == |acts| + 1 && vs[0] == Served(EMPTY, [], 0, 0.0, 0.0, map[])
    && (forall i :: 0 <= i < |acts| ==> Reads(times, delay, vs[i], acts[i]))
    && (forall i :: 0 <= i < |acts| ==> vs[i + 1] == Serve(states, vs[i], acts[i]))
  }

  /** A checked request rests on a durable record that was fresh, and leased if it carries a release. */
  ghost predicate Backed(states: seq<State>, times: seq<Time>, delay: Time, c: Checked) {
    && Durable(times, c.source, c.readAt) && c.source < |states|
    && c.readAt <= c.now <= c.readAt + FRESH + delay && c.now <= c.later
    && var s := states[c.source];
    && c.weight == s.route.weight && c.revision == s.route.revision
    && (s.active.Some? ==> s.lease.Some? && s.lease.value.until > c.later)
  }

  ghost predicate ServedOk(states: seq<State>, times: seq<Time>, delay: Time, v: Served) {
    && (forall id :: id in v.open ==> Backed(states, times, delay, v.open[id]))
    && v.cache.sequence == |v.picks|
    && match v.cache.state
       case None => v.cache.revision == -1 && v.open == map[]
       case Some(s) =>
         && Durable(times, v.source, v.readAt) && v.source < |states| && s == states[v.source]
         && v.readAt <= v.cache.updated <= v.readAt + delay && v.cache.updated <= v.clock
         && v.cache.revision == s.route.revision
  }

  lemma {:induction false} ServiceOk(states: seq<State>, times: seq<Time>, delay: Time, acts: seq<Act>,
                                     vs: seq<Served>, k: nat)
    requires IsService(states, times, delay, acts, vs) && k <= |acts|
    ensures ServedOk(states, times, delay, vs[k])
  {
    hide ChooseTrack;
    if k > 0 {
      ServiceOk(states, times, delay, acts, vs, k - 1);
      ActKeepsServed(states, times, delay, vs[k - 1], acts[k - 1]);
    }
  }

  lemma ActKeepsServed(states: seq<State>, times: seq<Time>, delay: Time, v: Served, act: Act)
    requires |times| == |states| && Reads(times, delay, v, act) && ServedOk(states, times, delay, v)
    ensures ServedOk(states, times, delay, Serve(states, v, act))
  {
    hide ChooseTrack;
    if act.Install? {
      assert act.source < |times|;
    }
    hide Durable;
  }

  /** Equal revisions carry equal weights; RevisionIdentifiesWeight proves it of every run. */
  ghost predicate Coherent(states: seq<State>) {
    forall i, j :: 0 <= i < |states| && 0 <= j < |states| && states[i].route.revision == states[j].route.revision ==>
      states[i].route == states[j].route
  }

  /** No request is checked under one revision and decided under another. */
  ghost predicate Smooth(acts: seq<Act>, vs: seq<Served>)
    requires |vs| == |acts| + 1
  {
    forall k :: 0 <= k < |acts| && acts[k].Decide? && acts[k].id in vs[k].open ==>
      vs[k].open[acts[k].id].revision == vs[k].cache.revision
  }

  /** All choices since the revision changed were made with the cached weight. */
  ghost predicate SplitOk(v: Served) {
    v.cache.state.Some? ==> Split(v.picks, v.cache.state.value.route.weight)
  }

  lemma ActKeepsSplit(states: seq<State>, times: seq<Time>, delay: Time, v: Served, act: Act)
    requires |times| == |states| && Coherent(states) && Reads(times, delay, v, act)
    requires ServedOk(states, times, delay, v) && SplitOk(v)
    requires act.Decide? && act.id in v.open ==> v.open[act.id].revision == v.cache.revision
    ensures SplitOk(Serve(states, v, act))
  {
    hide ChooseTrack;
    if act.Decide? && act.id in v.open {
      assert Backed(states, times, delay, v.open[act.id]);
    }
    hide Durable;
    if act.Install? {
      InstallKeepsSplit(states, times, delay, v, act);
    }
  }

  lemma InstallKeepsSplit(states: seq<State>, times: seq<Time>, delay: Time, v: Served, act: Act)
    requires act.Install? && act.source < |states| && Coherent(states)
    requires ServedOk(states, times, delay, v) && SplitOk(v)
    ensures SplitOk(Serve(states, v, act))
  {
    hide ChooseTrack;
  }

  lemma {:induction false} SplitIsKept(states: seq<State>, times: seq<Time>, delay: Time, acts: seq<Act>,
                                       vs: seq<Served>, k: nat)
    requires Coherent(states) && IsService(states, times, delay, acts, vs) && Smooth(acts, vs) && k <= |acts|
    ensures SplitOk(vs[k])
  {
    hide ServedOk;
    hide SplitOk;
    hide Coherent;
    if k > 0 {
      SplitIsKept(states, times, delay, acts, vs, k - 1);
      ServiceOk(states, times, delay, acts, vs, k - 1);
      ActKeepsSplit(states, times, delay, vs[k - 1], acts[k - 1]);
      hide Serve;
    } else {
      EmptySplit(vs[0]);
    }
  }

  lemma EmptySplit(v: Served)
    requires v.cache == EMPTY
    ensures SplitOk(v)
  {
  }

  lemma RunIsCoherent(p: Decisions.Policy, stable: Option<Serving>, ys: seq<Cluster.Sys>, ls: seq<Cluster.Label>)
    requires Runs.IsRun(p, stable, ys, ls)
    ensures Coherent(StatesOf(ys))
    ensures forall i :: 0 <= i < |ys| ==> PhaseOk(StatesOf(ys)[i])
  {
    hide Runs.IsRun;
    hide PhaseOk;
    RunLength(p, stable, ys, ls);
    var states := StatesOf(ys);
    forall i | 0 <= i < |ys|
      ensures PhaseOk(states[i])
    {
      Runs.EveryStateIsSound(p, stable, ys, ls, i);
    }
    forall i, j | 0 <= i < |states| && 0 <= j < |states| && states[i].route.revision == states[j].route.revision
      ensures states[i].route == states[j].route
    {
      if i <= j {
        Runs.RevisionIdentifiesWeight(p, stable, ys, ls, i, j);
      } else {
        Runs.RevisionIdentifiesWeight(p, stable, ys, ls, j, i);
      }
    }
  }

  lemma RunLength(p: Decisions.Policy, stable: Option<Serving>, ys: seq<Cluster.Sys>, ls: seq<Cluster.Label>)
    requires Runs.IsRun(p, stable, ys, ls)
    ensures |ys| == |ls| + 1
  {
  }

  // ----- exact splitting, as served ------------------------------------------------------------

  /**
   * Since the cached revision last changed, n decided requests have sent
   * exactly floor(n * weight / 100) to the canary, and every window of them is
   * fair, however the requests overlap and however often the same decision was
   * read again, as long as none was checked before that change.
   */
  lemma ServedSplitIsExact(p: Decisions.Policy, stable: Option<Serving>, ys: seq<Cluster.Sys>, ls: seq<Cluster.Label>,
                           times: seq<Time>, delay: Time, acts: seq<Act>, vs: seq<Served>, k: nat, from: nat, n: nat)
    requires IsTimeline(p, stable, ys, ls, times) && IsService(StatesOf(ys), times, delay, acts, vs)
    requires Smooth(acts, vs)
    requires k <= |acts| && vs[k].cache.state.Some? && from + n <= |vs[k].picks|
    ensures var w := vs[k].cache.state.value.route.weight;
            var c := Canaries(vs[k].picks[from..from + n]);
            && |vs[k].picks| == vs[k].cache.sequence
            && Canaries(vs[k].picks) == vs[k].cache.sequence * w / 100
            && n * w - 100 < 100 * c < n * w + 100 && (n == 100 ==> c == w)
  {
    hide Runs.IsRun;
    hide Smooth;
    RunIsCoherent(p, stable, ys, ls);
    ServiceOk(StatesOf(ys), times, delay, acts, vs, k);
    SplitIsKept(StatesOf(ys), times, delay, acts, vs, k);
    hide Split;
    hide Coherent;
    assert PhaseOk(StatesOf(ys)[vs[k].source]);
    PrefixIsExact(vs[k].picks, vs[k].cache.state.value.route.weight);
    WindowIsFair(vs[k].picks, vs[k].cache.state.value.route.weight, from, n);
  }

  // ----- failing closed ----------------------------------------------------------------------

  /**
   * A canary choice is backed by a durable record in RAMP or FINALIZING that
   * was read at most ten seconds plus the read delay before the request was
   * checked, and whose lease outlived the check.
   */
  lemma CanaryIsBacked(p: Decisions.Policy, stable: Option<Serving>, ys: seq<Cluster.Sys>, ls: seq<Cluster.Label>,
                       times: seq<Time>, delay: Time, acts: seq<Act>, vs: seq<Served>, k: nat)
    requires IsTimeline(p, stable, ys, ls, times) && IsService(StatesOf(ys), times, delay, acts, vs)
    requires k < |acts| && Chosen(vs[k], acts[k]) == Some(Canary)
    ensures var c := vs[k].open[acts[k].id];
            && Durable(times, c.source, c.readAt) && c.readAt <= c.now <= c.readAt + FRESH + delay
            && var s := ys[c.source].w.s;
            && (InPhase(s, Ramp) || InPhase(s, Finalizing)) && s.route.weight > 0
            && s.lease.Some? && s.lease.value.until > c.later
  {
    hide Runs.IsRun;
    RunIsCoherent(p, stable, ys, ls);
    ServiceOk(StatesOf(ys), times, delay, acts, vs, k);
    hide Coherent;
    hide IsService;
    var c := vs[k].open[acts[k].id];
    ExtremesAreConstant(vs[k].cache.sequence);
    assert Backed(StatesOf(ys), times, delay, c);
    assert PhaseOk(StatesOf(ys)[c.source]);
  }

  /**
   * No request that is checked more than ten seconds plus the read delay after
   * the durable weight went to 0 is sent to the canary, until the weight rises
   * again.
   */
  lemma FailsClosed(p: Decisions.Policy, stable: Option<Serving>, ys: seq<Cluster.Sys>, ls: seq<Cluster.Label>,
                    times: seq<Time>, delay: Time, acts: seq<Act>, vs: seq<Served>, k: nat, zeroed: Time)
    requires IsTimeline(p, stable, ys, ls, times) && IsService(StatesOf(ys), times, delay, acts, vs)
    requires k < |acts| && acts[k].Decide? && acts[k].id in vs[k].open
    requires vs[k].open[acts[k].id].now > zeroed + FRESH + delay
    requires forall i: nat, at :: zeroed <= at <= vs[k].open[acts[k].id].now && Durable(times, i, at) ==>
                                    ys[i].w.s.route.weight == 0
    ensures Chosen(vs[k], acts[k]) == Some(Stable)
  {
    hide Runs.IsRun;
    if Chosen(vs[k], acts[k]) == Some(Canary) {
      CanaryIsBacked(p, stable, ys, ls, times, delay, acts, vs, k);
    }
    hide ChooseTrack;
  }

  /** A request that meets a fresh record without a release passes its check, and is served by stable. */
  lemma IdleIsServed(p: Decisions.Policy, stable: Option<Serving>, ys: seq<Cluster.Sys>, ls: seq<Cluster.Label>,
                     times: seq<Time>, delay: Time, acts: seq<Act>, vs: seq<Served>, k: nat, sequence: nat)
    requires IsTimeline(p, stable, ys, ls, times) && IsService(StatesOf(ys), times, delay, acts, vs)
    requires k < |acts| && acts[k].Check?
    requires vs[k].cache.state.Some? && vs[k].cache.state.value.active.None?
    requires acts[k].now <= vs[k].cache.updated + 10.0
    ensures var id := acts[k].id;
            id in vs[k + 1].open && ChooseTrack(sequence, vs[k + 1].open[id].weight) == Stable
  {
    hide Runs.IsRun;
    RunIsCoherent(p, stable, ys, ls);
    ServiceOk(StatesOf(ys), times, delay, acts, vs, k);
    hide Coherent;
    assert vs[k + 1] == Serve(StatesOf(ys), vs[k], acts[k]);
    hide IsService;
    assert PhaseOk(StatesOf(ys)[vs[k].source]);
    ExtremesAreConstant(sequence);
    hide ChooseTrack;
  }

  /** What a ready router reports is the cached durable decision itself, as controllers compare it. */
  lemma ReadyReportsTheRoute(states: seq<State>, times: seq<Time>, delay: Time, v: Served, now: Time, later: Time)
    requires ServedOk(states, times, delay, v)
    ensures var report := StatusOf(v.cache, now, later);
            && (report.ready ==> v.source < |states| && report.revision >= 0
                                 && Route(report.weight, report.revision) == states[v.source].route)
            && (!report.ready ==> report.weight == 0)
  {
  }
}
