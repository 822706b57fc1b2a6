/**
 * No dead ends: from every reachable state of the interleaved system some
 * schedule of controller ticks completes the release, and some schedule rolls
 * it back. The schedules are made of the labels of module Cluster.
 */
module Progress {
  import opened Bounded
  import opened ReleaseState
  import opened Authorization
  import opened Mutators
  import opened Lifecycle
  import opened Machine
  import opened Decisions
  import opened Cluster
  import Deadlines
  import Runs

  // ----- schedules ------------------------------------------------------------------------

  ghost predicate Leads(p: Policy, y: Sys, ls: seq<Label>, z: Sys)
    decreases ls
  {
    if ls == [] then z == y else Can(p, y, ls[0]) && Leads(p, Do(p, y, ls[0]), ls[1..], z)
  }

  lemma LeadsOne(p: Policy, y: Sys, l: Label)
    requires Can(p, y, l)
    ensures Leads(p, y, [l], Do(p, y, l))
  {
    hide Do;
    assert [l][1..] == [];
    assert Leads(p, Do(p, y, l), [], Do(p, y, l));
  }

  lemma {:induction false} LeadsConcat(p: Policy, y: Sys, a: seq<Label>, m: Sys, b: seq<Label>, z: Sys)
    requires Leads(p, y, a, m) && Leads(p, m, b, z)
    ensures Leads(p, y, a + b, z)
    decreases a
  {
    hide Can;
    hide Do;
    if a == [] {
      assert a + b == b;
    } else {
      assert (a + b)[1..] == a[1..] + b;
      LeadsConcat(p, Do(p, y, a[0]), a[1..], m, b, z);
    }
  }

  lemma LeadsMore(p: Policy, y: Sys, a: seq<Label>, m: Sys, l: Label) returns (z: Sys)
    requires Leads(p, y, a, m) && Can(p, m, l)
    ensures z == Do(p, m, l) && Leads(p, y, a + [l], z)
  {
    hide Do;
    hide Can;
    LeadsOne(p, m, l);
    z := Do(p, m, l);
    LeadsConcat(p, y, a, m, [l], z);
  }

  lemma {:induction false} LeadsKeepsSysInv(p: Policy, y: Sys, ls: seq<Label>, z: Sys)
    requires SysInv(y) && Leads(p, y, ls, z)
    ensures SysInv(z)
    decreases ls
  {
    hide Can;
    hide Do;
    hide SysInv;
    if ls != [] {
      DoKeepsSysInv(p, y, ls[0]);
      LeadsKeepsSysInv(p, Do(p, y, ls[0]), ls[1..], z);
    }
  }

  /** Appended to a run, a schedule is a longer run. */
  lemma {:induction false} LeadsExtendsRun(p: Policy, stable: Option<Serving>, ys: seq<Sys>, done: seq<Label>,
                                           ls: seq<Label>, z: Sys) returns (all: seq<Sys>)
    requires Runs.IsRun(p, stable, ys, done) && Leads(p, ys[|done|], ls, z)
    ensures Runs.IsRun(p, stable, all, done + ls) && all[|done + ls|] == z
    decreases ls
  {
    hide Can;
    hide Do;
    if ls == [] {
      assert done + ls == done;
      all := ys;
    } else {
      var next := Do(p, ys[|done|], ls[0]);
      assert (done + [ls[0]]) + ls[1..] == done + ls;
      all := LeadsExtendsRun(p, stable, ys + [next], done + [ls[0]], ls[1..], z);
    }
  }

  // ----- clocks ---------------------------------------------------------------------------------

  predicate AnswersAt(ans: Answers, at: Time) {
    ans.now == at && ans.dwellNow == at && ans.closureNow == at
  }

  /** Every clock reading that the step makes is this one. */
  predicate ReadsAt(l: Label, at: Time) {
    match l
    case Take(_, check, until, _) => check == at && until == at + 60.0
    case Read(_, now) => now == at
    case Ensure(_, ans, now) => AnswersAt(ans, at) && now == at
    case Reread(_, ans) => AnswersAt(ans, at)
    case Ask(_, ans, _) => AnswersAt(ans, at)
    case Store(_, ans, now, _) => AnswersAt(ans, at) && now == at
    case Finish(_, ans) => AnswersAt(ans, at)
    case Outside(_) => false
    case _ => true
  }

  predicate AllAt(ls: seq<Label>, at: Time) {
    forall k :: 0 <= k < |ls| ==> ReadsAt(ls[k], at)
  }

  /** One clock that never goes back, from some time on: step k reads it at ats[k]. */
  ghost predicate OneClock(from: Time, ls: seq<Label>, ats: seq<Time>) {
    && |ats| == |ls|
    && (forall k :: 0 <= k < |ls| ==> from <= ats[k] && ReadsAt(ls[k], ats[k]))
    && (forall j, k :: 0 <= j < k < |ats| ==> ats[j] <= ats[k])
  }

  lemma AtOneTime(ls: seq<Label>, at: Time) returns (ats: seq<Time>)
    requires AllAt(ls, at)
    ensures OneClock(at, ls, ats) && forall k :: 0 <= k < |ats| ==> ats[k] == at
  {
    ats := seq(|ls|, _ => at);
  }

  lemma ClocksConcat(at: Time, ls: seq<Label>, from: Time, more: seq<Label>, later: seq<Time>) returns (ats: seq<Time>)
    requires AllAt(ls, at) && OneClock(from, more, later) && at <= from
    ensures OneClock(at, ls + more, ats)
  {
    hide ReadsAt;
    var first := AtOneTime(ls, at);
    ats := first + later;
  }

  /** The timed system of module Deadlines along a schedule. */
  ghost predicate TimedLeads(p: Policy, t: Deadlines.Timed, ls: seq<Label>, u: Deadlines.Timed)
    decreases ls
  {
    if ls == [] then u == t
    else Deadlines.Timely(p, t, ls[0]) && TimedLeads(p, Deadlines.After(p, t, ls[0]), ls[1..], u)
  }

  lemma StepIsTimely(p: Policy, t: Deadlines.Timed, l: Label, at: Time)
    requires Can(p, t.y, l) && ReadsAt(l, at) && t.now <= at && Deadlines.WorkersStarted(t)
    ensures Deadlines.Timely(p, t, l)
    ensures var u := Deadlines.After(p, t, l); u.y == Do(p, t.y, l) && u.now <= at && Deadlines.WorkersStarted(u)
  {
    hide Decide;
    hide Step;
    hide Mutate;
    hide Guard;
    var u := Deadlines.After(p, t, l);
    forall q | !CtlOf(u.y, q).Idle?
      ensures CtlOf(u.y, q).at <= u.now
    {
      assert CtlOf(t.y, q).Idle? || CtlOf(t.y, q).at <= t.now;
    }
  }

  /** A schedule with one clock is a timely schedule there, if it starts no earlier than the last reading. */
  lemma {:induction false} OneClockIsTimely(p: Policy, t: Deadlines.Timed, ls: seq<Label>, ats: seq<Time>, z: Sys)
    returns (u: Deadlines.Timed)
    requires Leads(p, t.y, ls, z) && OneClock(t.now, ls, ats) && Deadlines.WorkersStarted(t)
    ensures TimedLeads(p, t, ls, u) && u.y == z
    decreases ls
  {
    hide Can;
    hide Do;
    hide ReadsAt;
    hide Deadlines.Timely;
    hide Deadlines.After;
    hide Deadlines.WorkersStarted;
    if ls == [] {
      u := t;
    } else {
      StepIsTimely(p, t, ls[0], ats[0]);
      var next := Deadlines.After(p, t, ls[0]);
      assert OneClock(next.now, ls[1..], ats[1..]);
      u := OneClockIsTimely(p, next, ls[1..], ats[1..], z);
    }
  }

  // ----- one tick -----------------------------------------------------------------------------

  function Leased(w: World, o: Owner, until: Time): World {
    World(w.s.(lease := Some(Lease(o, until))), w.h)
  }

  /** The controller has the lease and has read the record. */
  ghost predicate Ready(w: World, z: Sys, o: Owner, at: Time) {
    && z.w == Leased(w, o, at + 60.0)
    && CtlOf(z, o) == Working(at, z.w.s, ViewOf(z.w.s), Start, None)
  }

  lemma SysFacts(y: Sys)
    requires SysInv(y)
    ensures PhaseOk(y.w.s) && RoutesOk(y.w)
  {
    SysInvParts(y);
  }

  /** When an owner can begin a tick: from this time on, and from the end of anybody else's lease on. */
  function FreeAt(s: State, from: Time): (at: Time)
    ensures at >= from && forall o :: !LeaseTaken(s, o, at)
  {
    if s.lease.Some? && s.lease.value.until > from then s.lease.value.until else from
  }

  lemma Begin(p: Policy, y: Sys, o: Owner, at: Time) returns (ls: seq<Label>, z: Sys)
    requires SysInv(y) && !LeaseTaken(y.w.s, o, at)
    ensures Leads(p, y, ls, z) && Ready(y.w, z, o, at) && AllAt(ls, at)
  {
    hide SysInv;
    hide RoutesOk;
    hide PhaseOk;
    SysFacts(y);
    LeadsOne(p, y, Crash(o));
    var idle := Do(p, y, Crash(o));
    assert CtlOf(idle, o).Idle? && idle.w == y.w;
    TakeLeases(y.w, o, at);
    var held := LeadsMore(p, y, [Crash(o)], idle, Take(o, at, at + 60.0, Acknowledged));
    assert CtlOf(held, o) == Held(at) && held.w == Leased(y.w, o, at + 60.0);
    z := LeadsMore(p, y, [Crash(o)] + [Take(o, at, at + 60.0, Acknowledged)], held, Read(o, at));
    ls := [Crash(o)] + [Take(o, at, at + 60.0, Acknowledged)] + [Read(o, at)];
    hide Leads;
  }

  lemma TakeLeases(w: World, o: Owner, at: Time)
    requires RoutesOk(w) && !LeaseTaken(w.s, o, at)
    ensures Step(w, Acquire(o, at, at + 60.0)) == Leased(w, o, at + 60.0)
  {
    assert w.h.audit + [] == w.h.audit;
    assert w.h.routes + {w.s.route} == w.h.routes;
  }

  /** The tick ends with this acknowledged write. */
  lemma WriteNow(p: Policy, y: Sys, ls: seq<Label>, z: Sys, o: Owner, at: Time, ans: Answers, op: Op)
    returns (all: seq<Label>, v: Sys)
    requires Leads(p, y, ls, z) && Guard(z.w.s, o, at)
    requires CtlOf(z, o).Working? && DecisionOf(p, CtlOf(z, o), ans) == Write(op)
    ensures Leads(p, y, all, v) && v.w == Step(z.w, op) && (AllAt(ls, at) && AnswersAt(ans, at) ==> AllAt(all, at))
    ensures op.ForceZero? && Mutate(z.w.s, op).Commit? ==>
              CtlOf(v, o) == CtlOf(z, o).(view := ViewOf(Mutate(z.w.s, op).next), pos := Zeroed)
  {
    hide Decide;
    hide Mutate;
    hide Step;
    v := LeadsMore(p, y, ls, z, Store(o, ans, at, Acknowledged));
    all := ls + [Store(o, ans, at, Acknowledged)];
    hide Leads;
  }

  /** The lane rewrite that the tick asks for. */
  lemma RewriteNow(p: Policy, y: Sys, ls: seq<Label>, z: Sys, o: Owner, at: Time, ans: Answers)
    returns (all: seq<Label>, v: Sys)
    requires Leads(p, y, ls, z) && Guard(z.w.s, o, at)
    requires CtlOf(z, o).Working? && DecisionOf(p, CtlOf(z, o), ans).Rewrite?
    ensures Leads(p, y, all, v) && v.w == z.w && (AllAt(ls, at) && AnswersAt(ans, at) ==> AllAt(all, at))
    ensures CtlOf(v, o) == CtlOf(z, o).(pos := if CtlOf(z, o).pos.Zeroed? then Restoring else Ensured)
  {
    hide Decide;
    v := LeadsMore(p, y, ls, z, Ensure(o, ans, at));
    all := ls + [Ensure(o, ans, at)];
    hide Leads;
  }

  /** The router reads the record, and reports ready to the tick that asks it. */
  lemma RouterAnswers(p: Policy, y: Sys, ls: seq<Label>, z: Sys, o: Owner, ans: Answers)
    returns (all: seq<Label>, v: Sys)
    requires Leads(p, y, ls, z)
    requires CtlOf(z, o).Working? && DecisionOf(p, CtlOf(z, o), ans).AskRouter?
    ensures Leads(p, y, all, v) && v.w == z.w
    ensures forall at :: AllAt(ls, at) && AnswersAt(ans, at) ==> AllAt(all, at)
    ensures CtlOf(v, o) == CtlOf(z, o).(seen := Some(Report(true, z.w.s.route)))
  {
    hide Decide;
    var a := LeadsMore(p, y, ls, z, Fetch);
    var b := LeadsMore(p, y, ls + [Fetch], a, Install);
    assert CtlOf(b, o) == CtlOf(z, o) && b.cache == Some(z.w.s.route);
    v := LeadsMore(p, y, ls + [Fetch] + [Install], b, Ask(o, ans, true));
    all := ls + [Fetch] + [Install] + [Ask(o, ans, true)];
    hide Leads;
  }

  // ----- a release that goes well --------------------------------------------------------------

  function Healthy(p: Policy): Metrics {
    Metrics(Val(1.0), Val(0.0), Val(p.minimum), Val(1.0), Val(0.0), Val(0.0), Val(0.0))
  }

  /** Everything is ready, the deadline lies ahead and the dwell time is over. */
  predicate Goes(p: Policy, s: State, ans: Answers) {
    && s.active.Some? && ans.canaryReady && ans.stableReady && ans.metrics == Healthy(p)
    && (InPhase(s, Draining) || ans.now < s.active.value.deadline)
    && (InPhase(s, Ramp) && s.active.value.stageSince.Some? ==>
          ans.dwellNow - s.active.value.stageSince.value >= p.dwell)
  }

  /** The closure that such a tick writes. */
  function Forward(p: Policy, s: State, ans: Answers): Op
    requires s.active.Some?
  {
    var a := s.active.value;
    var deadline := ans.closureNow + p.timeout;
    match a.phase
    case Preparing => Arm(deadline)
    case Ramp => if a.stageSince.None? then MarkStage(ans.closureNow) else Promote(s.route.weight, deadline)
    case Finalizing => CommitStable(a.target, deadline)
    case _ => Complete(a.target.pair, a.auth.hash)
  }

  lemma ForwardDecided(p: Policy, s: State, at: Time, ans: Answers)
    requires ValidPolicy(p) && Goes(p, s, ans) && !Recovering(s) && !AuthLost(s.active.value)
    ensures var c := Working(at, s, ViewOf(s), Start, None);
            var told := Some(Report(true, s.route));
            && (InPhase(s, Preparing) || InPhase(s, Finalizing) ==>
                  && DecisionOf(p, c, ans).Rewrite?
                  && DecisionOf(p, c.(pos := Ensured), ans) == Write(Forward(p, s, ans)))
            && (InPhase(s, Ramp) || InPhase(s, Draining) ==>
                  && DecisionOf(p, c, ans).AskRouter?
                  && DecisionOf(p, c.(seen := told), ans) == Write(Forward(p, s, ans)))
  {
    hide ValidAuth;
    EmptyAssessmentIsHealthy(Healthy(p), p.errorLimit, p.p95Limit);
    hide Assess;
  }

  /** From any state with a release that is not recovering, one tick takes it a step forward. */
  lemma ForwardTick(p: Policy, y: Sys, o: Owner, at: Time, ans: Answers) returns (ls: seq<Label>, z: Sys)
    requires SysInv(y) && ValidPolicy(p) && !LeaseTaken(y.w.s, o, at) && Goes(p, y.w.s, ans) && !Recovering(y.w.s)
    ensures Leads(p, y, ls, z) && z.w == Step(Leased(y.w, o, at + 60.0), Forward(p, y.w.s, ans))
    ensures AnswersAt(ans, at) ==> AllAt(ls, at)
  {
    hide SysInv;
    hide Leads;
    hide AuthLost;
    hide Decide;
    hide Step;
    hide Mutate;
    hide Can;
    hide Do;
    hide Forward;
    hide ValidPolicy;
    hide AllAt;
    hide AnswersAt;
    ls, z := Begin(p, y, o, at);
    LeadsKeepsSysInv(p, y, ls, z);
    AuthorizationNeverLost(z, o);
    var s := z.w.s;
    LeasedGoes(p, y.w.s, s, ans);
    hide Goes;
    ForwardDecided(p, s, at, ans);
    if InPhase(s, Preparing) || InPhase(s, Finalizing) {
      ls, z := RewriteNow(p, y, ls, z, o, at, ans);
    } else {
      ls, z := RouterAnswers(p, y, ls, z, o, ans);
    }
    ls, z := WriteNow(p, y, ls, z, o, at, ans, Forward(p, s, ans));
  }

  lemma LeasedGoes(p: Policy, s: State, t: State, ans: Answers)
    requires Goes(p, s, ans) && t == s.(lease := t.lease)
    ensures Goes(p, t, ans) && Forward(p, t, ans) == Forward(p, s, ans) && (Recovering(t) <==> Recovering(s))
  {
    hide Healthy;
  }

  // ----- what the step does ------------------------------------------------------------------------

  /** The same release, queue and history. */
  ghost predicate SameRelease(w: World, v: World) {
    && w.s.active.Some? && v.s.active.Some?
    && v.s.active.value.target == w.s.active.value.target
    && v.s.active.value.previous == w.s.active.value.previous
    && v.s.active.value.auth == w.s.active.value.auth
    && v.s.highest == w.s.highest && v.s.pending == w.s.pending && v.h.accepted == w.h.accepted
    && v.h.claims == w.h.claims && v.h.ends == w.h.ends
    && v.h.processed == w.h.processed && v.h.failed == w.h.failed
  }

  /** How far a release is on its way. */
  function Stage(s: State): (n: nat)
    requires s.active.Some?
    ensures n <= 15
  {
    var a := s.active.value;
    2 * Deadlines.Rank(a.phase, s.route.weight) + (if a.phase == Ramp && a.stageSince.Some? then 1 else 0)
  }

  lemma ForwardAdvances(p: Policy, w: World, ans: Answers)
    requires PhaseOk(w.s) && w.s.active.Some? && !Recovering(w.s)
    ensures var v := Step(w, Forward(p, w.s, ans));
            && (InPhase(w.s, Draining) ==> Ends(w, v, Won))
            && (!InPhase(w.s, Draining) ==> SameRelease(w, v) && !Recovering(v.s) && Stage(v.s) > Stage(w.s))
  {
  }

  lemma LeasedFacts(p: Policy, w: World, o: Owner, until: Time)
    requires w.s.active.Some?
    ensures PhaseOk(w.s) ==> PhaseOk(Leased(w, o, until).s)
    ensures SameRelease(w, Leased(w, o, until))
    ensures forall ans :: Forward(p, Leased(w, o, until).s, ans) == Forward(p, w.s, ans)
    ensures Stage(Leased(w, o, until).s) == Stage(w.s)
  {
  }

  /** One tick forward, with what it does to the release. */
  lemma ForwardStep(p: Policy, y: Sys, o: Owner, at: Time, ans: Answers) returns (ls: seq<Label>, z: Sys)
    requires SysInv(y) && ValidPolicy(p) && !LeaseTaken(y.w.s, o, at) && Goes(p, y.w.s, ans) && !Recovering(y.w.s)
    ensures Leads(p, y, ls, z) && SysInv(z) && (AnswersAt(ans, at) ==> AllAt(ls, at))
    ensures z.w == Step(Leased(y.w, o, at + 60.0), Forward(p, y.w.s, ans))
    ensures InPhase(y.w.s, Draining) ==> Ends(y.w, z.w, Won)
    ensures !InPhase(y.w.s, Draining) ==> SameRelease(y.w, z.w) && !Recovering(z.w.s) && Stage(z.w.s) > Stage(y.w.s)
  {
    hide SysInv;
    hide PhaseOk;
    hide RoutesOk;
    hide Leads;
    hide Step;
    hide Forward;
    hide AllAt;
    hide AnswersAt;
    SysFacts(y);
    assert y.w.s.active.Some?;
    ls, z := ForwardTick(p, y, o, at, ans);
    hide Goes;
    LeadsKeepsSysInv(p, y, ls, z);
    var w := Leased(y.w, o, at + 60.0);
    LeasedFacts(p, y.w, o, at + 60.0);
    ForwardAdvances(p, w, ans);
    hide Leased;
    hide Stage;
  }

  lemma EndsLater(w: World, v: World, z: World, e: End)
    requires SameRelease(w, v) && Ends(v, z, e)
    ensures Ends(w, z, e)
  {
  }

  /** Clock readings with the deadline ahead and the dwell time over. */
  function InGoodTime(p: Policy, a: Active): Answers {
    Answers(true, true, Healthy(p), a.deadline - 1.0,
            if a.stageSince.Some? then a.stageSince.value + p.dwell else 0.0, 0.0)
  }

  lemma GoodTimeGoes(p: Policy, s: State)
    requires s.active.Some?
    ensures Goes(p, s, InGoodTime(p, s.active.value))
  {
    hide Healthy;
  }

  /** From every reachable state with a release that is not recovering, some schedule completes it. */
  lemma {:induction false} CanPromote(p: Policy, y: Sys, o: Owner) returns (ls: seq<Label>, z: Sys)
    requires SysInv(y) && ValidPolicy(p) && y.w.s.active.Some? && !Recovering(y.w.s)
    ensures Leads(p, y, ls, z) && Ends(y.w, z.w, Won)
    decreases 20 - Stage(y.w.s)
  {
    hide SysInv;
    hide Leads;
    hide Step;
    hide Forward;
    hide Goes;
    hide Stage;
    hide FreeAt;
    hide Leased;
    hide AllAt;
    hide ValidPolicy;
    hide Ends;
    var ans := InGoodTime(p, y.w.s.active.value);
    GoodTimeGoes(p, y.w.s);
    ls, z := ForwardStep(p, y, o, FreeAt(y.w.s, 0.0), ans);
    if !InPhase(y.w.s, Draining) {
      var rest, end := CanPromote(p, z, o);
      EndsLater(y.w, z.w, end.w, Won);
      LeadsConcat(p, y, ls, z, rest, end);
      ls, z := ls + rest, end;
    }
  }

  // ----- in time ----------------------------------------------------------------------------------

  /** Nobody else holds the lease, and the current stage can still be passed before its deadline. */
  predicate Room(p: Policy, s: State, o: Owner, at: Time) {
    && s.active.Some? && !Recovering(s) && !LeaseTaken(s, o, at)
    && var a := s.active.value;
    && (a.phase == Draining || at < a.deadline)
    && (a.phase == Ramp ==> (if a.stageSince.Some? then a.stageSince.value else at) + p.dwell < a.deadline)
  }

  /** When the next tick has something to do. */
  function NextTick(p: Policy, s: State, at: Time): (t: Time)
    ensures t >= at
  {
    if InPhase(s, Ramp) && s.active.value.stageSince.Some? && s.active.value.stageSince.value + p.dwell > at
    then s.active.value.stageSince.value + p.dwell else at
  }

  function AtOnce(p: Policy, at: Time): Answers {
    Answers(true, true, Healthy(p), at, at, at)
  }

  lemma RoomGoes(p: Policy, s: State, o: Owner, at: Time)
    requires Room(p, s, o, at)
    ensures !LeaseTaken(s, o, NextTick(p, s, at)) && Goes(p, s, AtOnce(p, NextTick(p, s, at)))
  {
    hide Healthy;
  }

  /** After that tick there is room for the next one. */
  lemma RoomStays(p: Policy, w: World, o: Owner, at: Time)
    requires ValidPolicy(p) && PhaseOk(w.s) && Room(p, w.s, o, at) && !InPhase(w.s, Draining)
    ensures var t := NextTick(p, w.s, at);
            Room(p, Step(Leased(w, o, t + 60.0), Forward(p, w.s, AtOnce(p, t))).s, o, t)
  {
    hide Healthy;
  }

  /**
   * With one monotone clock: from every reachable state whose current stage can
   * still be passed in time, some schedule completes the release.
   */
  lemma {:induction false} CanPromoteInTime(p: Policy, y: Sys, o: Owner, at: Time)
    returns (ls: seq<Label>, ats: seq<Time>, z: Sys)
    requires SysInv(y) && ValidPolicy(p) && Room(p, y.w.s, o, at)
    ensures Leads(p, y, ls, z) && Ends(y.w, z.w, Won) && OneClock(at, ls, ats)
    decreases if y.w.s.active.Some? then 20 - Stage(y.w.s) else 0
  {
    hide SysInv;
    hide Leads;
    hide Step;
    hide Forward;
    hide Goes;
    hide Stage;
    hide PhaseOk;
    hide RoutesOk;
    hide AllAt;
    hide OneClock;
    hide NextTick;
    hide ValidPolicy;
    hide Ends;
    assert y.w.s.active.Some? && !Recovering(y.w.s);
    RoomGoes(p, y.w.s, o, at);
    var t := NextTick(p, y.w.s, at);
    ls, z := ForwardStep(p, y, o, t, AtOnce(p, t));
    if InPhase(y.w.s, Draining) {
      ats := AtOneTime(ls, t);
    } else {
      SysFacts(y);
      RoomStays(p, y.w, o, at);
      hide Leased;
      hide Room;
      var rest, later, end := CanPromoteInTime(p, z, o, t);
      EndsLater(y.w, z.w, end.w, Won);
      LeadsConcat(p, y, ls, z, rest, end);
      ats := ClocksConcat(t, ls, t, rest, later);
      ls, z := ls + rest, end;
    }
    ClockFromEarlier(at, t, ls, ats);
  }

  lemma ClockFromEarlier(from: Time, t: Time, ls: seq<Label>, ats: seq<Time>)
    requires OneClock(t, ls, ats) && from <= t
    ensures OneClock(from, ls, ats)
  {
    hide ReadsAt;
  }

  // ----- a release that is rolled back ------------------------------------------------------------

  /** A tick that meets an unexpected exception asks for a rollback. */
  lemma FailingTick(p: Policy, y: Sys, o: Owner, at: Time) returns (ls: seq<Label>, z: Sys)
    requires SysInv(y) && y.w.s.active.Some? && !Recovering(y.w.s) && !LeaseTaken(y.w.s, o, at)
    ensures Leads(p, y, ls, z) && AllAt(ls, at)
    ensures z.w == Step(Leased(y.w, o, at + 60.0), BeginRollback("effect_failure", at + p.timeout))
  {
    hide SysInv;
    hide Leads;
    hide AuthLost;
    hide Decide;
    hide Mutate;
    hide Step;
    hide Can;
    hide Do;
    hide AllAt;
    ls, z := Begin(p, y, o, at);
    LeadsKeepsSysInv(p, y, ls, z);
    AuthorizationNeverLost(z, o);
    ThrowFails(p, z, o);
    AllAtMore(ls, Throw(o, Unexpected), at);
    var v := LeadsMore(p, y, ls, z, Throw(o, Unexpected));
    ls := ls + [Throw(o, Unexpected)];
    var ans := AtOnce(p, at);
    FailureDecided(p, CtlOf(v, o), ans);
    ls, z := WriteNow(p, y, ls, v, o, at, ans, BeginRollback("effect_failure", at + p.timeout));
  }

  lemma AllAtMore(ls: seq<Label>, l: Label, at: Time)
    requires AllAt(ls, at) && ReadsAt(l, at)
    ensures AllAt(ls + [l], at)
  {
  }

  /** An unexpected exception inside a tick reaches its handler. */
  lemma ThrowFails(p: Policy, z: Sys, o: Owner)
    requires CtlOf(z, o).Working? && CtlOf(z, o).pos.Start? && CtlOf(z, o).snap.active.Some?
    requires !AuthLost(CtlOf(z, o).snap.active.value)
    ensures Can(p, z, Throw(o, Unexpected))
    ensures var v := Do(p, z, Throw(o, Unexpected));
            v.w == z.w && CtlOf(v, o) == CtlOf(z, o).(pos := Failing(Unexpected))
  {
    hide AuthLost;
    hide Decide;
    hide Step;
  }

  lemma FailureDecided(p: Policy, c: Ctl, ans: Answers)
    requires c.Working? && c.pos == Failing(Unexpected) && c.snap.active.Some? && !Recovering(c.snap)
    ensures DecisionOf(p, c, ans) == Write(BeginRollback("effect_failure", ans.closureNow + p.timeout))
  {
    hide ValidAuth;
  }

  lemma RecoveryDecided(p: Policy, s: State, at: Time)
    requires Recovering(s)
    ensures var c := Working(at, s, ViewOf(s), Start, None);
            var ans := AtOnce(p, at);
            var told := Some(Report(true, s.route));
            var a := s.active.value;
            && DecisionOf(p, c, ans) == Write(ForceZero)
            && DecisionOf(p, c.(pos := Zeroed), ans).Rewrite?
            && DecisionOf(p, c.(pos := Restoring), ans).Look?
            && DecisionOf(p, c.(pos := Compared(s.route)), ans).AskRouter?
            && DecisionOf(p, c.(pos := Compared(s.route), seen := told), ans)
               == Write(Restore(a.previous, a.target.pair, a.reason, a.auth.hash))
  {
    hide ValidAuth;
  }

  /** At weight 0 already, forcing it changes nothing. */
  lemma ForceZeroKeeps(w: World)
    requires w.s.route.weight == 0 && RoutesOk(w)
    ensures Step(w, ForceZero) == w && Mutate(w.s, ForceZero) == Commit(w.s, [])
  {
    assert w.h.audit + [] == w.h.audit;
    assert w.h.routes + {w.s.route} == w.h.routes;
  }

  /** The first half of a recovery: weight 0 is forced again and the stable lane is rewritten. */
  lemma RewritingHalf(p: Policy, y: Sys, o: Owner, at: Time) returns (ls: seq<Label>, z: Sys)
    requires SysInv(y) && Recovering(y.w.s) && !LeaseTaken(y.w.s, o, at)
    ensures Leads(p, y, ls, z) && AllAt(ls, at) && z.w == Leased(y.w, o, at + 60.0)
    ensures CtlOf(z, o) == Working(at, z.w.s, ViewOf(z.w.s), Restoring, None)
  {
    hide SysInv;
    hide Leads;
    hide Decide;
    hide Step;
    hide Mutate;
    hide RoutesOk;
    SysFacts(y);
    ls, z := Begin(p, y, o, at);
    hide AllAt;
    LeadsKeepsSysInv(p, y, ls, z);
    SysFacts(z);
    assert z.w.s.route.weight == 0;
    hide PhaseOk;
    ForceZeroKeeps(z.w);
    var s := z.w.s;
    var ans := AtOnce(p, at);
    RecoveryDecided(p, s, at);
    ls, z := WriteNow(p, y, ls, z, o, at, ans, ForceZero);
    assert z.w.s == s;
    ls, z := RewriteNow(p, y, ls, z, o, at, ans);
  }

  /** From any recovering state, one tick restores the previous serving. */
  lemma RestoringTick(p: Policy, y: Sys, o: Owner, at: Time) returns (ls: seq<Label>, z: Sys)
    requires SysInv(y) && Recovering(y.w.s) && !LeaseTaken(y.w.s, o, at)
    ensures var a := y.w.s.active.value;
            Leads(p, y, ls, z) && AllAt(ls, at)
            && z.w == Step(Leased(y.w, o, at + 60.0), Restore(a.previous, a.target.pair, a.reason, a.auth.hash))
  {
    hide SysInv;
    hide Leads;
    hide Decide;
    hide Step;
    ls, z := RewritingHalf(p, y, o, at);
    var s := z.w.s;
    var a := s.active.value;
    var ans := AtOnce(p, at);
    RecoveryDecided(p, s, at);
    var looked := LeadsMore(p, y, ls, z, Reread(o, ans));
    ls := ls + [Reread(o, ans)];
    assert CtlOf(looked, o) == CtlOf(z, o).(pos := Compared(s.route)) && looked.w == z.w;
    ls, z := RouterAnswers(p, y, ls, looked, o, ans);
    ls, z := WriteNow(p, y, ls, z, o, at, ans, Restore(a.previous, a.target.pair, a.reason, a.auth.hash));
  }

  lemma RestoreEnds(w: World)
    requires PhaseOk(w.s) && Recovering(w.s)
    ensures var a := w.s.active.value;
            && a.reason.Some?
            && Ends(w, Step(w, Restore(a.previous, a.target.pair, a.reason, a.auth.hash)), End.Lost(a.reason.value))
  {
  }

  lemma FailingRecovers(w: World, deadline: Time)
    requires PhaseOk(w.s) && w.s.active.Some? && !Recovering(w.s)
    ensures var v := Step(w, BeginRollback("effect_failure", deadline));
            SameRelease(w, v) && Recovering(v.s)
  {
  }

  lemma CanRestore(p: Policy, y: Sys, o: Owner, at: Time) returns (ls: seq<Label>, z: Sys, reason: string)
    requires SysInv(y) && Recovering(y.w.s) && !LeaseTaken(y.w.s, o, at)
    ensures Leads(p, y, ls, z) && Ends(y.w, z.w, End.Lost(reason)) && AllAt(ls, at)
  {
    hide SysInv;
    hide PhaseOk;
    hide RoutesOk;
    hide Leads;
    hide Step;
    hide Ends;
    hide AllAt;
    SysFacts(y);
    ls, z := RestoringTick(p, y, o, at);
    var w := Leased(y.w, o, at + 60.0);
    LeasedFacts(p, y.w, o, at + 60.0);
    RestoreEnds(w);
    reason := y.w.s.active.value.reason.value;
    EndsFromLeased(y.w, o, at + 60.0, z.w, End.Lost(reason));
  }

  lemma EndsFromLeased(w: World, o: Owner, until: Time, v: World, e: End)
    requires Ends(Leased(w, o, until), v, e)
    ensures Ends(w, v, e)
  {
  }

  /**
   * From every reachable state with a release, and from any time on, some
   * schedule rolls it back to the serving it started from. Once nobody else's
   * lease is in the way, two ticks at one moment do it.
   */
  lemma CanRollBack(p: Policy, y: Sys, o: Owner, from: Time)
    returns (ls: seq<Label>, ats: seq<Time>, z: Sys, reason: string)
    requires SysInv(y) && y.w.s.active.Some?
    ensures Leads(p, y, ls, z) && Ends(y.w, z.w, End.Lost(reason)) && OneClock(from, ls, ats)
  {
    hide SysInv;
    hide PhaseOk;
    hide RoutesOk;
    hide Leads;
    hide Step;
    hide Ends;
    hide OneClock;
    hide ReadsAt;
    var at := FreeAt(y.w.s, from);
    if Recovering(y.w.s) {
      ls, z, reason := CanRestore(p, y, o, at);
    } else {
      SysFacts(y);
      ls, z := FailingTick(p, y, o, at);
      LeasedFacts(p, y.w, o, at + 60.0);
      FailingRecovers(Leased(y.w, o, at + 60.0), at + p.timeout);
      assert SameRelease(y.w, z.w);
      StillLeased(y.w, o, at);
      hide Leased;
      LeadsKeepsSysInv(p, y, ls, z);
      var rest, end;
      rest, end, reason := CanRestore(p, z, o, at);
      EndsLater(y.w, z.w, end.w, End.Lost(reason));
      LeadsConcat(p, y, ls, z, rest, end);
      ls, z := ls + rest, end;
    }
    ats := AtOneTime(ls, at);
    ClockFromEarlier(from, at, ls, ats);
  }

  lemma StillLeased(w: World, o: Owner, at: Time)
    ensures forall deadline ::
              !LeaseTaken(Step(Leased(w, o, at + 60.0), BeginRollback("effect_failure", deadline)).s, o, at)
  {
    forall deadline
      ensures !LeaseTaken(Step(Leased(w, o, at + 60.0), BeginRollback("effect_failure", deadline)).s, o, at)
    {
      if Mutate(Leased(w, o, at + 60.0).s, BeginRollback("effect_failure", deadline)).Commit? {
        OnlyAcquireMovesLease(Leased(w, o, at + 60.0).s, BeginRollback("effect_failure", deadline));
      }
    }
  }
}
