/**
 * Any number of legacy controllers, the other writers and the router,
 * interleaved, with arbitrary clocks and every fate of every write.
 */
module LegacyCluster {
  import opened Bounded
  import opened ReleaseState
  import opened Legacy
  import Decisions

  /** The part of the record that only a lease holder changes. */
  datatype View = View(active: Option<Release>, route: Route, stable: Image, processed: seq<Digest>, failed: seq<Fault>)

  function ViewOf(s: Record): View {
    View.View(s.active, s.route, s.stable, s.processed, s.failed)
  }

  /** A router reports the revision it holds, and that route's weight only when it is ready. */
  datatype Report = Report(ready: bool, held: Option<Route>)

  function Weight(r: Report): nat {
    if r.ready && r.held.Some? then r.held.value.weight else 0
  }

  function Revision(r: Report): int {
    if r.held.Some? then r.held.value.revision else -1
  }

  /**
   * Ensured, Zeroed, Emptied: after the lane rewrite, the forced zero weight,
   * the scale-down to zero. Compared holds the revision of the second guard read.
   */
  datatype Pos = Start | Ensured | Zeroed | Compared(revision: nat) | Emptied | Failing

  datatype Ctl =
    | Idle
    | Held
    | Working(snap: Record, view: View, pos: Pos, seen: Option<Report>)

  /** `routes` is every route that was ever durable. */
  datatype Sys = Sys(s: Record, routes: set<Route>, ctl: map<Owner, Ctl>, fetched: Option<Route>, cache: Option<Route>)

  /** Outside answers; `waiting` is a transport failure of the stable probe. */
  datatype Answers = Answers(canaryReady: bool, stableReady: bool, waiting: bool, metrics: Decisions.Metrics,
                             now: Time, later: Time)

  datatype Policy = Policy(minimum: real, dwell: Time, timeout: Time, errorLimit: real, p95Limit: real)

  datatype Decision = Stop | Ensure(stableLane: bool, digest: Digest, replicas: nat) | Ask | Look | Write(op: Op)

  datatype Fate = Acknowledged | Unseen | Lost | Conflicted

  datatype Label =
    | Take(o: Owner, check: Time, until: Time, fate: Fate)
    | Read(o: Owner, now: Time)
    | Rewrite(o: Owner, ans: Answers, now: Time)
    | Inquire(o: Owner, ans: Answers, ready: bool)
    | Reread(o: Owner, ans: Answers, now: Time)
    | Store(o: Owner, ans: Answers, now: Time, fate: Fate)
    | Finish(o: Owner, ans: Answers)
    | Throw(o: Owner, busy: bool)
    | Crash(o: Owner)
    | Outside(op: Op)
    | Fetch
    | Install

  // ----- one tick --------------------------------------------------------------------------

  function RollbackFor(p: Policy, reason: string, ans: Answers): Decision {
    Write(BeginRollback(reason, ans.later + p.timeout))
  }

  function DecideRamp(p: Policy, c: Ctl, a: Release, ans: Answers): (d: Decision)
    requires c.Working?
    ensures d.Stop? || d.Ask? || d.Write?
    ensures d.Write? ==>
              || d.op.BeginRollback? || d.op.MarkStage?
              || (d.op.Advance? && d.op.weight == c.snap.route.weight < 100)
              || (d.op.EnterFinalizing? && c.snap.route.weight >= 100)
  {
    var m := ans.metrics;
    var weight := c.snap.route.weight;
    if !ans.canaryReady || !ans.stableReady then RollbackFor(p, "backend_unhealthy", ans)
    else if c.seen.None? then Ask
    else if Weight(c.seen.value) != weight || Revision(c.seen.value) != c.snap.route.revision
            || !c.seen.value.ready then
      if ans.now > a.deadline then RollbackFor(p, "router_ack_timeout", ans) else Stop
    else if a.stageSince.None? then Write(MarkStage(ans.later))
    else if m.up.Undefined? || m.age.Undefined? || m.traffic.Undefined? || m.traffic.v < 0.0 then
      RollbackFor(p, "invalid_canary_metrics", ans)
    else if m.up.v != 1.0 || !(0.0 <= m.age.v <= 15.0) then RollbackFor(p, "router_unavailable_or_stale", ans)
    else if m.traffic.v < p.minimum then
      if ans.now >= a.deadline then RollbackFor(p, "insufficient_canary_traffic", ans) else Stop
    else if ans.now - a.stageSince.value < p.dwell then
      if ans.now >= a.deadline then RollbackFor(p, "stage_deadline_exceeded", ans) else Stop
    else if Decisions.Assess(m, p.errorLimit, p.p95Limit) != [] then
      RollbackFor(p, Decisions.Join(Decisions.Assess(m, p.errorLimit, p.p95Limit)), ans)
    else if ans.now >= a.deadline then RollbackFor(p, "stage_deadline_exceeded", ans)
    else if weight < 100 then Write(Advance(weight, ans.later + p.timeout))
    else Write(EnterFinalizing(ans.later + p.timeout))
  }

  function DecideFinalizing(p: Policy, c: Ctl, a: Release, ans: Answers): Decision
    requires c.Working?
  {
    if c.pos.Start? then Ensure(true, a.image.digest, 1)
    else if ans.waiting then
      if ans.now >= a.deadline then RollbackFor(p, "stable_backend_unavailable", ans) else Stop
    else if ans.now >= a.deadline then RollbackFor(p, "stable_readiness_timeout", ans)
    else if ans.stableReady then Write(Finalize(a.image, ans.later + p.timeout))
    else Stop
  }

  /** The drain waits for a ready router that holds the zero weight. */
  predicate Drained(c: Ctl) {
    c.Working? && c.seen.Some? && c.seen.value.ready && Weight(c.seen.value) == 0
    && Revision(c.seen.value) == c.snap.route.revision
  }

  function DecideDraining(c: Ctl, a: Release): Decision
    requires c.Working?
  {
    if c.seen.None? then Ask
    else if !Drained(c) then Stop
    else if c.pos.Emptied? then Write(Complete(a.image.digest))
    else Ensure(false, a.image.digest, 0)
  }

  /** Restoring comes before zeroing, and zeroing before the scale-down. */
  function DecideRollback(c: Ctl, a: Release, ans: Answers): Decision
    requires c.Working?
  {
    if a.restoreStable then
      if c.pos.Start? then Ensure(true, a.previous.digest, 1)
      else if ans.stableReady then Write(Restored)
      else if ans.now > a.deadline then Write(Block)
      else Stop
    else if c.pos.Start? then Write(ForceZero)
    else if c.seen.None? then Ask
    else if c.pos.Emptied? then Write(CompleteRollback(a.image, a.reason))
    else if !c.pos.Compared? then Look
    else if Weight(c.seen.value) != 0 || Revision(c.seen.value) != c.pos.revision then Stop
    else Ensure(false, a.image.digest, 0)
  }

  function DecideNext(p: Policy, c: Ctl, ans: Answers): Decision
    requires c.Working?
  {
    match c.snap.active
    case None => Write(Claim(ans.later + p.timeout))
    case Some(a) =>
      if c.pos.Failing? then
        if RollsBack(a.phase) then RollbackFor(p, "exception", ans) else Stop
      else
        match a.phase
        case Preparing =>
          if c.pos.Start? then Ensure(false, a.image.digest, 1)
          else if ans.canaryReady then Write(Arm(ans.later + p.timeout))
          else if ans.now > a.deadline then RollbackFor(p, "candidate_readiness_timeout", ans)
          else Stop
        case Ramp => DecideRamp(p, c, a, ans)
        case Finalizing => DecideFinalizing(p, c, a, ans)
        case Draining => DecideDraining(c, a)
        case Rollback => DecideRollback(c, a, ans)
        case Blocked => Stop
  }

  // ----- exactly when, in terms of the inputs -----------------------------------------------

  /** The router reports ready, and holds exactly this route. */
  predicate Acknowledges(seen: Option<Report>, route: Route) {
    seen == Some(Report(true, Some(route)))
  }

  predicate RollsBackNow(p: Policy, d: Decision, ans: Answers) {
    d.Write? && d.op.BeginRollback? && d.op.deadline == ans.later + p.timeout
  }

  predicate RollsBackFor(p: Policy, d: Decision, ans: Answers, reason: string) {
    RollsBackNow(p, d, ans) && d.op.reason == reason
  }

  /** A tick that has met no exception, with a release in this phase. */
  predicate Normal(c: Ctl, phase: Phase) {
    c.Working? && InPhase(c.snap, phase) && !c.pos.Failing?
  }

  /** Everything that a stage has to show before it is promoted. */
  predicate Earned(p: Policy, c: Ctl, ans: Answers) {
    && Normal(c, Ramp) && ans.canaryReady && ans.stableReady && Acknowledges(c.seen, c.snap.route)
    && var a := c.snap.active.value;
    && a.stageSince.Some? && ans.now >= a.stageSince.value + p.dwell && ans.now < a.deadline
    && Decisions.InLimits(ans.metrics, p.errorLimit, p.p95Limit) && ans.metrics.traffic.v >= p.minimum
  }

  /**
   * A legacy tick in RAMP. A promotion is exactly what has been earned; an
   * unready lane is never waited out, nor a broken limit once the dwell time
   * is over and there is enough traffic.
   */
  lemma RampExactly(p: Policy, c: Ctl, ans: Answers)
    requires Normal(c, Ramp)
    ensures var d, a, m := DecideNext(p, c, ans), c.snap.active.value, ans.metrics;
            var lanes := ans.canaryReady && ans.stableReady;
            var acked := Acknowledges(c.seen, c.snap.route);
            var staged := lanes && acked && a.stageSince.Some?;
            var dwelt := a.stageSince.Some? && ans.now >= a.stageSince.value + p.dwell;
            var weight := c.snap.route.weight;
            && (d.Ask? <==> lanes && c.seen.None?)
            && (d == Write(MarkStage(ans.later)) <==> lanes && acked && a.stageSince.None?)
            && (d == Write(Advance(weight, ans.later + p.timeout)) <==> Earned(p, c, ans) && weight < 100)
            && (d == Write(EnterFinalizing(ans.later + p.timeout)) <==> Earned(p, c, ans) && weight >= 100)
            && (d.Stop? <==>
                  || (lanes && c.seen.Some? && !acked && ans.now <= a.deadline)
                  || (staged && Decisions.Sampled(m) && ans.now < a.deadline && (m.traffic.v < p.minimum || !dwelt)))
            && (RollsBackNow(p, d, ans) <==>
                  || !lanes
                  || (c.seen.Some? && !acked && ans.now > a.deadline)
                  || (staged && (!Decisions.Sampled(m) || ans.now >= a.deadline
                                 || (m.traffic.v >= p.minimum && dwelt
                                     && !Decisions.InLimits(m, p.errorLimit, p.p95Limit)))))
  {
    Decisions.EmptyAssessmentIsHealthy(ans.metrics, p.errorLimit, p.p95Limit);
    hide Decisions.Assess;
  }

  /** Which closure is ever written for a promotion. */
  lemma PromotionIsEarned(p: Policy, c: Ctl, ans: Answers)
    requires c.Working? && DecideNext(p, c, ans).Write?
    requires DecideNext(p, c, ans).op.Advance? || DecideNext(p, c, ans).op.EnterFinalizing?
    ensures Earned(p, c, ans)
    ensures DecideNext(p, c, ans).op.Advance? ==> DecideNext(p, c, ans).op.weight == c.snap.route.weight < 100
    ensures DecideNext(p, c, ans).op.EnterFinalizing? ==> c.snap.route.weight >= 100
  {
    hide DecideRamp;
    if Normal(c, Ramp) {
      RampExactly(p, c, ans);
      hide DecideNext;
    }
  }

  /** No tick waits with an unready lane, or with a broken limit after the dwell time. */
  lemma UnhealthyRollsBack(p: Policy, c: Ctl, ans: Answers)
    requires Normal(c, Ramp)
    requires var a, m := c.snap.active.value, ans.metrics;
             || !ans.canaryReady || !ans.stableReady
             || (Acknowledges(c.seen, c.snap.route) && a.stageSince.Some?
                 && (!Decisions.Sampled(m)
                     || (m.traffic.v >= p.minimum && ans.now >= a.stageSince.value + p.dwell
                         && !Decisions.InLimits(m, p.errorLimit, p.p95Limit))))
    ensures RollsBackNow(p, DecideNext(p, c, ans), ans)
  {
    RampExactly(p, c, ans);
    hide DecideNext;
  }

  lemma PreparingExactly(p: Policy, c: Ctl, ans: Answers)
    requires Normal(c, Preparing)
    ensures var d, a := DecideNext(p, c, ans), c.snap.active.value;
            && (d == Ensure(false, a.image.digest, 1) <==> c.pos.Start?)
            && (d == Write(Arm(ans.later + p.timeout)) <==> !c.pos.Start? && ans.canaryReady)
            && (RollsBackFor(p, d, ans, "candidate_readiness_timeout") <==>
                  !c.pos.Start? && !ans.canaryReady && ans.now > a.deadline)
            && (d.Stop? <==> !c.pos.Start? && !ans.canaryReady && ans.now <= a.deadline)
  {
  }

  /** In FINALIZING a stable lane that cannot be reached is waited for until the deadline. */
  lemma FinalizingExactly(p: Policy, c: Ctl, ans: Answers)
    requires Normal(c, Finalizing)
    ensures var d, a := DecideNext(p, c, ans), c.snap.active.value;
            && (d == Ensure(true, a.image.digest, 1) <==> c.pos.Start?)
            && (d == Write(Finalize(a.image, ans.later + p.timeout))
                <==> !c.pos.Start? && !ans.waiting && ans.stableReady && ans.now < a.deadline)
            && (RollsBackFor(p, d, ans, "stable_backend_unavailable") <==>
                  !c.pos.Start? && ans.waiting && ans.now >= a.deadline)
            && (RollsBackFor(p, d, ans, "stable_readiness_timeout") <==>
                  !c.pos.Start? && !ans.waiting && ans.now >= a.deadline)
            && (d.Stop? <==> !c.pos.Start? && (ans.waiting || !ans.stableReady) && ans.now < a.deadline)
  {
  }

  /** A drain has no deadline: it waits for a ready router that holds weight 0 at this revision. */
  lemma DrainingExactly(p: Policy, c: Ctl, ans: Answers)
    requires Normal(c, Draining)
    ensures var d, a := DecideNext(p, c, ans), c.snap.active.value;
            var acked := Acknowledges(c.seen, Route(0, c.snap.route.revision));
            && (d.Ask? <==> c.seen.None?)
            && (d == Ensure(false, a.image.digest, 0) <==> acked && !c.pos.Emptied?)
            && (d == Write(Complete(a.image.digest)) <==> acked && c.pos.Emptied?)
            && (d.Stop? <==> c.seen.Some? && !acked)
  {
  }

  /** A rollback first restores the stable lane, if it has to, and only then takes the traffic away. */
  lemma RollbackExactly(p: Policy, c: Ctl, ans: Answers)
    requires Normal(c, Rollback)
    ensures var d, a := DecideNext(p, c, ans), c.snap.active.value;
            if a.restoreStable then
              && (d == Ensure(true, a.previous.digest, 1) <==> c.pos.Start?)
              && (d == Write(Restored) <==> !c.pos.Start? && ans.stableReady)
              && (d == Write(Block) <==> !c.pos.Start? && !ans.stableReady && ans.now > a.deadline)
              && (d.Stop? <==> !c.pos.Start? && !ans.stableReady && ans.now <= a.deadline)
            else
              && (d == Write(ForceZero) <==> c.pos.Start?)
              && (d.Ask? <==> !c.pos.Start? && c.seen.None?)
              && (d == Write(CompleteRollback(a.image, a.reason)) <==> c.pos.Emptied? && c.seen.Some?)
              && (d.Look? <==> !c.pos.Start? && c.seen.Some? && !c.pos.Emptied? && !c.pos.Compared?)
              && (d == Ensure(false, a.image.digest, 0) <==>
                    c.pos.Compared? && c.seen.Some? && Weight(c.seen.value) == 0
                    && c.seen.value.held.Some? && c.seen.value.held.value.revision == c.pos.revision)
              && (d.Stop? <==>
                    c.pos.Compared? && c.seen.Some?
                    && !(Weight(c.seen.value) == 0
                         && c.seen.value.held.Some? && c.seen.value.held.value.revision == c.pos.revision))
  {
  }

  /** Idle, blocked, and after an exception. */
  lemma OtherwiseExactly(p: Policy, c: Ctl, ans: Answers)
    requires c.Working?
    ensures var d := DecideNext(p, c, ans);
            && (c.snap.active.None? ==> d == Write(Claim(ans.later + p.timeout)))
            && (InPhase(c.snap, Blocked) ==> d.Stop?)
            && (c.snap.active.Some? && c.pos.Failing? ==>
                  if c.snap.active.value.phase in {Preparing, Ramp, Finalizing}
                  then RollsBackFor(p, d, ans, "exception") else d.Stop?)
  {
    hide DecideRamp;
  }

  // ----- steps ------------------------------------------------------------------------------

  function CtlOf(y: Sys, o: Owner): Ctl {
    if o in y.ctl then y.ctl[o] else Idle
  }

  predicate Holds(s: Record, o: Owner) {
    s.lease.Some? && s.lease.value.owner == o
  }

  /** Reads and lane rewrites need ten seconds of lease left; writes only an unexpired lease. */
  predicate Guard(s: Record, o: Owner, now: Time) {
    Holds(s, o) && s.lease.value.until > now
  }

  predicate Can(p: Policy, y: Sys, l: Label) {
    match l
    case Take(o, _, _, _) => CtlOf(y, o).Idle?
    case Read(o, now) => CtlOf(y, o).Held? && Guard(y.s, o, now + 10.0)
    case Rewrite(o, ans, now) =>
      && CtlOf(y, o).Working? && DecideNext(p, CtlOf(y, o), ans).Ensure?
      && Guard(y.s, o, now + 10.0)
    case Inquire(o, ans, ready) =>
      CtlOf(y, o).Working? && DecideNext(p, CtlOf(y, o), ans).Ask? && (ready ==> y.cache.Some?)
    case Reread(o, ans, now) =>
      CtlOf(y, o).Working? && DecideNext(p, CtlOf(y, o), ans).Look? && Guard(y.s, o, now + 10.0)
    case Store(o, ans, now, _) =>
      CtlOf(y, o).Working? && DecideNext(p, CtlOf(y, o), ans).Write? && Guard(y.s, o, now)
    case Finish(o, ans) => CtlOf(y, o).Working? && DecideNext(p, CtlOf(y, o), ans).Stop?
    case Throw(o, _) => CtlOf(y, o).Working?
    case Crash(_) => true
    case Outside(op) => op.Ingest? || op.Retry?
    case Fetch => true
    case Install => y.fetched.Some?
  }

  function Place(y: Sys, o: Owner, c: Ctl): Sys {
    y.(ctl := y.ctl[o := c])
  }

  /** An exception other than Busy starts the handler of the first three phases, unless it is raised there. */
  function Fail(c: Ctl, view: View): Ctl
    requires c.Working?
  {
    if c.snap.active.Some? && !c.pos.Failing? && RollsBack(c.snap.active.value.phase)
    then c.(view := view, pos := Failing) else Idle
  }

  function Step(y: Sys, op: Op): Sys {
    match Mutate(y.s, op)
    case Raise => y
    case Commit(next) => y.(s := next, routes := y.routes + {next.route})
  }

  function AfterStore(c: Ctl, op: Op, r: Outcome, fate: Fate): Ctl
    requires c.Working?
  {
    match r
    case Raise => Fail(c, c.view)
    case Commit(next) =>
      match fate
      case Acknowledged => if op.ForceZero? then c.(view := ViewOf(next), pos := Zeroed) else Idle
      case Unseen => Fail(c, ViewOf(next))
      case Lost => Fail(c, c.view)
      case Conflicted => Idle
  }

  function Do(p: Policy, y: Sys, l: Label): Sys
    requires Can(p, y, l)
  {
    match l
    case Take(o, check, until, fate) =>
      var taken := y.s.lease.Some? && y.s.lease.value.owner != o && y.s.lease.value.until > check;
      if taken || fate.Lost? || fate.Conflicted? then y
      else
        var z := Step(y, Acquire(o, check, until));
        if fate.Acknowledged? then Place(z, o, Held) else z
    case Read(o, _) => Place(y, o, Working(y.s, ViewOf(y.s), Start, None))
    case Rewrite(o, ans, _) =>
      var c := CtlOf(y, o);
      Place(y, o, c.(pos := if DecideNext(p, c, ans).replicas == 0 then Emptied else Ensured))
    case Inquire(o, _, ready) => Place(y, o, CtlOf(y, o).(seen := Some(Report(ready, y.cache))))
    case Reread(o, _, _) => Place(y, o, CtlOf(y, o).(pos := Compared(y.s.route.revision)))
    case Store(o, ans, _, fate) =>
      var c := CtlOf(y, o);
      var op := DecideNext(p, c, ans).op;
      var z := if fate.Acknowledged? || fate.Unseen? then Step(y, op) else y;
      Place(z, o, AfterStore(c, op, Mutate(y.s, op), fate))
    case Finish(o, _) => Place(y, o, Idle)
    case Throw(o, busy) => Place(y, o, if busy then Idle else Fail(CtlOf(y, o), CtlOf(y, o).view))
    case Crash(o) => Place(y, o, Idle)
    case Outside(op) => Step(y, op)
    case Fetch => y.(fetched := Some(y.s.route))
    case Install => y.(cache := y.fetched)
  }

  /** The lease is taken, or renewed, exactly when nobody else holds it past the reading. */
  lemma TakesExactly(p: Policy, y: Sys, o: Owner, check: Time, until: Time, fate: Fate)
    requires CtlOf(y, o).Idle?
    ensures var z := Do(p, y, Take(o, check, until, fate));
            var free := y.s.lease.None? || y.s.lease.value.owner == o || y.s.lease.value.until <= check;
            && z.s == (if free && (fate.Acknowledged? || fate.Unseen?) then y.s.(lease := Some(Lease(o, until)))
                       else y.s)
            && CtlOf(z, o) == (if free && fate.Acknowledged? then Held else Idle)
  {
  }

  /** What an exception and a write leave; only an error in the first three phases reaches the handler, once. */
  lemma ErrorsReachHandler(p: Policy, y: Sys, o: Owner, ans: Answers, now: Time, fate: Fate)
    requires CtlOf(y, o).Working?
    ensures var c := CtlOf(y, o);
            var handled := c.snap.active.Some? && c.snap.active.value.phase in {Preparing, Ramp, Finalizing}
                           && !c.pos.Failing?;
            && CtlOf(Do(p, y, Throw(o, true)), o) == Idle
            && CtlOf(Do(p, y, Throw(o, false)), o) == (if handled then c.(pos := Failing) else Idle)
            && (Can(p, y, Store(o, ans, now, fate)) ==>
                  var z, op := Do(p, y, Store(o, ans, now, fate)), DecideNext(p, c, ans).op;
                  && z.s == (if (fate.Acknowledged? || fate.Unseen?) && Mutate(y.s, op).Commit?
                             then Mutate(y.s, op).next else y.s)
                  && (Mutate(y.s, op).Commit? ==>
                        CtlOf(z, o) == match fate
                                       case Acknowledged =>
                                         if op.ForceZero? then c.(view := ViewOf(z.s), pos := Zeroed) else Idle
                                       case Unseen => if handled then c.(view := ViewOf(z.s), pos := Failing) else Idle
                                       case Lost => if handled then c.(pos := Failing) else Idle
                                       case Conflicted => Idle))
  {
    hide DecideNext;
    hide Mutate;
  }

  // ----- the invariant ---------------------------------------------------------------------------

  ghost predicate RoutesOk(y: Sys) {
    && y.s.route in y.routes
    && (forall r :: r in y.routes ==> r.revision <= y.s.route.revision)
    && (forall r, q :: r in y.routes && q in y.routes && r.revision == q.revision ==> r == q)
    && (y.fetched.Some? ==> y.fetched.value in y.routes)
    && (y.cache.Some? ==> y.cache.value in y.routes)
    && (forall o :: CtlOf(y, o).Working? && CtlOf(y, o).seen.Some? && CtlOf(y, o).seen.value.held.Some? ==>
                      CtlOf(y, o).seen.value.held.value in y.routes)
  }

  ghost predicate WorkOk(c: Ctl) {
    c.Working? ==>
      && PhaseOk(c.snap)
      && (c.seen.Some? ==> (c.seen.value.ready ==> c.seen.value.held.Some?))
      && (c.pos.Start? || c.pos.Ensured? ==> c.view == ViewOf(c.snap))
      && (c.pos.Ensured? ==> c.snap.active.Some? && (RollsBack(c.snap.active.value.phase) || StableIdle(c.snap)))
      && (c.pos.Emptied? ==> InPhase(c.snap, Draining) || Zeroing(c))
      && (InPhase(c.snap, Draining) ==> c.view == ViewOf(c.snap))
      && (c.pos.Zeroed? ==> Zeroing(c))
      && (c.pos.Compared? ==> Zeroing(c) && c.pos.revision == c.view.route.revision)
      && (c.pos.Failing? ==> c.snap.active.Some? && RollsBack(c.snap.active.value.phase))
  }

  /** A rollback that no longer has to restore anything, at weight 0. */
  ghost predicate Zeroing(c: Ctl)
    requires c.Working?
  {
    InPhase(c.snap, Rollback) && !c.snap.active.value.restoreStable && c.view.active == c.snap.active
    && c.view.route.weight == 0
  }

  ghost predicate WorkersOk(y: Sys) {
    forall o :: WorkOk(CtlOf(y, o))
  }

  ghost predicate Fenced(y: Sys) {
    forall o :: CtlOf(y, o).Working? && Holds(y.s, o) ==> ViewOf(y.s) == CtlOf(y, o).view
  }

  ghost predicate Inv(y: Sys) {
    PhaseOk(y.s) && RoutesOk(y) && WorkersOk(y) && Fenced(y)
  }

  function InitialSys(base: Image): Sys {
    Sys(Initial(base), {Route(0, 0)}, map[], None, None)
  }

  /** At a guarded write, the captured values are current: the closure fits the record. */
  lemma WritesFit(p: Policy, y: Sys, l: Label)
    requires Inv(y) && l.Store? && Can(p, y, l)
    ensures Fits(y.s, DecideNext(p, CtlOf(y, l.o), l.ans).op)
    ensures ByController(DecideNext(p, CtlOf(y, l.o), l.ans).op)
    ensures ViewOf(y.s) == CtlOf(y, l.o).view
  {
    hide DecideRamp;
    hide RoutesOk;
    assert WorkOk(CtlOf(y, l.o));
  }

  // ----- preservation ----------------------------------------------------------------------------

  lemma RouteMoves(s: Record, op: Op)
    requires Mutate(s, op).Commit?
    ensures var r := Mutate(s, op).next.route;
            r == s.route || r.revision == s.route.revision + 1
    ensures !op.Acquire? ==> Mutate(s, op).next.lease == s.lease
    ensures !ByController(op) ==> ViewOf(Mutate(s, op).next) == ViewOf(s)
  {
    hide Decide;
    hide EligibleOf;
  }

  lemma StepKeepsRoutes(y: Sys, op: Op)
    requires RoutesOk(y)
    ensures RoutesOk(Step(y, op))
  {
    if Mutate(y.s, op).Commit? {
      RouteMoves(y.s, op);
    }
    hide Mutate;
    assert forall o :: CtlOf(Step(y, op), o) == CtlOf(y, o);
  }

  /** Placing a controller keeps the route invariant if what it has seen was durable. */
  lemma PlaceKeepsRoutes(y: Sys, o: Owner, c: Ctl)
    requires RoutesOk(y)
    requires c.Working? && c.seen.Some? && c.seen.value.held.Some? ==> c.seen.value.held.value in y.routes
    ensures RoutesOk(Place(y, o, c))
  {
    assert forall q :: q != o ==> CtlOf(Place(y, o, c), q) == CtlOf(y, q);
  }

  lemma RoutesKept(p: Policy, y: Sys, l: Label)
    requires RoutesOk(y) && Can(p, y, l)
    ensures RoutesOk(Do(p, y, l))
  {
    hide DecideNext;
    hide Mutate;
    hide RoutesOk;
    RoutesFacts(y);
    match l
    case Take(o, check, until, fate) =>
      StepKeepsRoutes(y, Acquire(o, check, until));
      PlaceKeepsRoutes(Step(y, Acquire(o, check, until)), o, Held);
    case Store(o, ans, now, fate) =>
      var op := DecideNext(p, CtlOf(y, o), ans).op;
      StepKeepsRoutes(y, op);
      var z := if fate.Acknowledged? || fate.Unseen? then Step(y, op) else y;
      RoutesFacts(z);
      assert CtlOf(z, o) == CtlOf(y, o);
      PlaceKeepsRoutes(z, o, AfterStore(CtlOf(y, o), op, Mutate(y.s, op), fate));
    case Outside(op) => StepKeepsRoutes(y, op);
    case Fetch => CacheKeepsRoutes(y, Do(p, y, l));
    case Install => CacheKeepsRoutes(y, Do(p, y, l));
    case _ => PlaceKeepsRoutes(y, l.o, CtlOf(Do(p, y, l), l.o));
  }

  lemma RoutesFacts(y: Sys)
    requires RoutesOk(y)
    ensures y.cache.Some? ==> y.cache.value in y.routes
    ensures forall o :: CtlOf(y, o).Working? && CtlOf(y, o).seen.Some? && CtlOf(y, o).seen.value.held.Some? ==>
                          CtlOf(y, o).seen.value.held.value in y.routes
  {
  }

  lemma CacheKeepsRoutes(y: Sys, z: Sys)
    requires RoutesOk(y) && z.s == y.s && z.routes == y.routes && z.ctl == y.ctl
    requires z.fetched == Some(y.s.route) || z.fetched == y.fetched
    requires z.cache == y.cache || z.cache == y.fetched
    ensures RoutesOk(z)
  {
    assert forall o :: CtlOf(z, o) == CtlOf(y, o);
  }

  lemma PhaseKept(p: Policy, y: Sys, l: Label)
    requires Inv(y) && Can(p, y, l)
    ensures PhaseOk(Do(p, y, l).s)
  {
    hide DecideNext;
    hide PhaseOk;
    hide Fenced;
    hide WorkersOk;
    hide RoutesOk;
    hide Fits;
    hide Mutate;
    match l
    case Store(o, ans, _, _) =>
      WritesFit(p, y, l);
      var op := DecideNext(p, CtlOf(y, o), ans).op;
      if Mutate(y.s, op).Commit? {
        FittingKeepsPhase(y.s, op);
      }
    case Take(o, check, until, _) =>
      assert Fits(y.s, Acquire(o, check, until)) by {
        OutsidersFit(y.s, Acquire(o, check, until));
      }
      if Mutate(y.s, Acquire(o, check, until)).Commit? {
        FittingKeepsPhase(y.s, Acquire(o, check, until));
      }
    case Outside(op) =>
      OutsidersFit(y.s, op);
      if Mutate(y.s, op).Commit? {
        FittingKeepsPhase(y.s, op);
      }
    case _ =>
  }

  lemma OutsidersFit(s: Record, op: Op)
    requires !ByController(op)
    ensures Fits(s, op)
  {
  }

  lemma FenceKept(p: Policy, y: Sys, l: Label)
    requires Inv(y) && Can(p, y, l)
    ensures Fenced(Do(p, y, l))
  {
    hide DecideNext;
    hide PhaseOk;
    hide WorkersOk;
    hide RoutesOk;
    hide Fits;
    hide Mutate;
    var z := Do(p, y, l);
    match l
    case Store(o, ans, _, _) =>
      WritesFit(p, y, l);
      var op := DecideNext(p, CtlOf(y, o), ans).op;
      if Mutate(y.s, op).Commit? {
        RouteMoves(y.s, op);
      }
      assert forall q :: q != o ==> CtlOf(z, q) == CtlOf(y, q);
    case Take(o, check, until, _) =>
      TakeMeans(y.s, o, check, until);
      assert forall q :: q != o ==> CtlOf(z, q) == CtlOf(y, q);
    case Outside(op) =>
      if Mutate(y.s, op).Commit? {
        RouteMoves(y.s, op);
      }
      assert forall q :: CtlOf(z, q) == CtlOf(y, q);
    case Fetch => assert forall q :: CtlOf(z, q) == CtlOf(y, q);
    case Install => assert forall q :: CtlOf(z, q) == CtlOf(y, q);
    case _ => assert forall q :: q != l.o ==> CtlOf(z, q) == CtlOf(y, q);
  }

  lemma TakeMeans(s: Record, o: Owner, check: Time, until: Time)
    ensures var r := Mutate(s, Acquire(o, check, until));
            && r.Commit? && ViewOf(r.next) == ViewOf(s)
            && ((s.lease.Some? && s.lease.value.owner != o && s.lease.value.until > check)
                || r.next.lease == Some(Lease(o, until)))
  {
  }

  lemma WorkersKept(p: Policy, y: Sys, l: Label)
    requires Inv(y) && Can(p, y, l)
    ensures WorkersOk(Do(p, y, l))
  {
    hide DecideNext;
    hide RoutesOk;
    hide Mutate;
    hide WorkOk;
    hide Fits;
    var z := Do(p, y, l);
    match l
    case Outside(_) => assert forall q :: CtlOf(z, q) == CtlOf(y, q);
    case Fetch => assert forall q :: CtlOf(z, q) == CtlOf(y, q);
    case Install => assert forall q :: CtlOf(z, q) == CtlOf(y, q);
    case Store(o, ans, _, fate) =>
      WritesFit(p, y, l);
      AfterStoreOk(p, y.s, CtlOf(y, o), ans, fate);
      hide AfterStore;
      assert forall q :: q != o ==> CtlOf(z, q) == CtlOf(y, q);
    case Read(o, _) =>
      assert WorkOk(CtlOf(z, o)) by {
        FreshWorkOk(y.s);
      }
      assert forall q :: q != o ==> CtlOf(z, q) == CtlOf(y, q);
    case _ =>
      WorkerKept(p, y, l);
      assert forall q :: q != l.o ==> CtlOf(z, q) == CtlOf(y, q);
  }

  lemma FreshWorkOk(s: Record)
    requires PhaseOk(s)
    ensures WorkOk(Working(s, ViewOf(s), Start, None))
  {
  }

  lemma WorkerKept(p: Policy, y: Sys, l: Label)
    requires l.Take? || l.Rewrite? || l.Inquire? || l.Reread? || l.Finish? || l.Throw? || l.Crash?
    requires Can(p, y, l) && WorkOk(CtlOf(y, l.o))
    requires Fenced(y)
    ensures WorkOk(CtlOf(Do(p, y, l), l.o))
  {
    hide DecideRamp;
    hide PhaseOk;
    hide Mutate;
  }

  lemma AfterStoreOk(p: Policy, s: Record, c: Ctl, ans: Answers, fate: Fate)
    requires c.Working? && WorkOk(c) && DecideNext(p, c, ans).Write? && ViewOf(s) == c.view
    ensures WorkOk(AfterStore(c, DecideNext(p, c, ans).op, Mutate(s, DecideNext(p, c, ans).op), fate))
  {
    hide DecideRamp;
    hide PhaseOk;
    hide EligibleOf;
  }

  lemma DoKeepsInv(p: Policy, y: Sys, l: Label)
    requires Inv(y) && Can(p, y, l)
    ensures Inv(Do(p, y, l))
  {
    PhaseKept(p, y, l);
    FenceKept(p, y, l);
    WorkersKept(p, y, l);
    RoutesKept(p, y, l);
    hide Do;
  }

  // ----- traffic safety -----------------------------------------------------------------------------

  /**
   * The stable lane is rewritten only while all traffic goes to the canary
   * (FINALIZING, or a rollback that still has to restore it). The canary lane
   * is scaled to zero only when the router has reported weight 0 at the
   * current revision, and then it holds exactly the current durable decision.
   */
  lemma RewritesAreSafe(p: Policy, y: Sys, o: Owner, ans: Answers, now: Time)
    requires Inv(y) && Can(p, y, Rewrite(o, ans, now))
    ensures var d := DecideNext(p, CtlOf(y, o), ans);
            && (d.stableLane ==> StableIdle(y.s) && y.s.route.weight == 100)
            && (!d.stableLane && d.replicas > 0 ==> InPhase(y.s, Preparing) && y.s.route.weight == 0)
            && (!d.stableLane && d.replicas == 0 ==>
                  && y.s.route.weight == 0 && CtlOf(y, o).seen.Some?
                  && Weight(CtlOf(y, o).seen.value) == 0
                  && CtlOf(y, o).seen.value.held == Some(y.s.route))
  {
    hide DecideRamp;
    var c := CtlOf(y, o);
    assert WorkOk(c) && ViewOf(y.s) == c.view;
    hide WorkersOk;
    hide Fenced;
    if c.seen.Some? && c.seen.value.held.Some? {
      assert c.seen.value.held.value in y.routes;
    }
  }

  /**
   * While the stable lane may be half rewritten, traffic leaves the canary
   * only in a tick that has rewritten that lane and found it ready.
   */
  lemma TrafficReturnsOnlyToReadyStable(p: Policy, y: Sys, l: Label)
    requires Inv(y) && Can(p, y, l) && StableIdle(y.s) && Do(p, y, l).s.route.weight != 100
    ensures l.Store? && CtlOf(y, l.o).Working? && CtlOf(y, l.o).pos.Ensured? && l.ans.stableReady
  {
    hide RoutesOk;
    assert y.s.route.weight == 100;
    match l
    case Store(o, ans, _, _) =>
      WritesFit(p, y, l);
      assert WorkOk(CtlOf(y, o));
      hide WorkersOk;
      hide Fenced;
      RestoringWrite(p, y.s, CtlOf(y, o), ans);
      hide DecideNext;
      hide Mutate;
    case Take(o, check, until, _) => TakeMeans(y.s, o, check, until);
    case Outside(op) =>
      if Mutate(y.s, op).Commit? {
        RouteMoves(y.s, op);
      }
      hide Mutate;
    case _ =>
  }

  lemma RestoringWrite(p: Policy, s: Record, c: Ctl, ans: Answers)
    requires c.Working? && WorkOk(c) && ViewOf(s) == c.view && StableIdle(s) && PhaseOk(s)
    requires DecideNext(p, c, ans).Write? && Fits(s, DecideNext(p, c, ans).op)
    ensures var r := Mutate(s, DecideNext(p, c, ans).op);
            r.Commit? && r.next.route.weight != 100 ==> c.pos.Ensured? && ans.stableReady
  {
    hide DecideRamp;
    hide EligibleOf;
  }

  ghost predicate IsRun(p: Policy, base: Image, ys: seq<Sys>, ls: seq<Label>) {
    && |ys| == |ls| + 1
    && ys[0] == InitialSys(base)
    && forall i :: 0 <= i < |ls| ==> Can(p, ys[i], ls[i]) && ys[i + 1] == Do(p, ys[i], ls[i])
  }

  lemma {:induction false} RunKeepsInv(p: Policy, base: Image, ys: seq<Sys>, ls: seq<Label>, i: nat)
    requires IsRun(p, base, ys, ls) && i <= |ls|
    ensures Inv(ys[i])
  {
    if i > 0 {
      RunKeepsInv(p, base, ys, ls, i - 1);
      DoKeepsInv(p, ys[i - 1], ls[i - 1]);
    }
    hide Do;
    hide Can;
  }

  /** Traffic safety of every lane rewrite of every run. */
  lemma EveryRewriteIsSafe(p: Policy, base: Image, ys: seq<Sys>, ls: seq<Label>, i: nat)
    requires IsRun(p, base, ys, ls) && i < |ls| && ls[i].Rewrite?
    ensures var y, c := ys[i], CtlOf(ys[i], ls[i].o);
            var d := DecideNext(p, c, ls[i].ans);
            && (d.stableLane ==> StableIdle(y.s) && y.s.route.weight == 100)
            && (!d.stableLane && d.replicas > 0 ==> InPhase(y.s, Preparing) && y.s.route.weight == 0)
            && (!d.stableLane && d.replicas == 0 ==>
                  y.s.route.weight == 0 && c.seen.Some? && c.seen.value.held == Some(y.s.route))
  {
    RunKeepsInv(p, base, ys, ls, i);
    hide Inv;
    RewritesAreSafe(p, ys[i], ls[i].o, ls[i].ans, ls[i].now);
    hide DecideNext;
  }

  // ----- the stable image -----------------------------------------------------------------------------

  /** Every ingested candidate carries a time that is not before the epoch. */
  predicate Timely(l: Label) {
    l.Outside? && l.op.Ingest? && l.op.candidate.Some? ==> l.op.candidate.value.time >= 0.0
  }

  lemma StepKeepsStable(p: Policy, y: Sys, l: Label)
    requires Inv(y) && TimesOk(y.s) && Can(p, y, l) && Timely(l)
    ensures TimesOk(Do(p, y, l).s) && NoNewer(y.s.stable, Do(p, y, l).s.stable)
  {
    hide DecideNext;
    hide PhaseOk;
    hide Fenced;
    hide WorkersOk;
    hide RoutesOk;
    hide Fits;
    hide Mutate;
    hide TimesOk;
    match l
    case Store(o, ans, _, _) =>
      WritesFit(p, y, l);
      var op := DecideNext(p, CtlOf(y, o), ans).op;
      if Mutate(y.s, op).Commit? {
        FittingKeepsTimes(y.s, op);
      }
    case Take(o, check, until, _) =>
      OutsidersFit(y.s, Acquire(o, check, until));
      if Mutate(y.s, Acquire(o, check, until)).Commit? {
        FittingKeepsTimes(y.s, Acquire(o, check, until));
      }
    case Outside(op) =>
      OutsidersFit(y.s, op);
      if Mutate(y.s, op).Commit? {
        FittingKeepsTimes(y.s, op);
      }
    case _ =>
  }

  /** The closure that a step hands to the store, if it can reach the record. */
  function ClosureOf(p: Policy, y: Sys, l: Label): Option<Op>
    requires Can(p, y, l)
  {
    match l
    case Store(o, ans, _, fate) =>
      if fate.Acknowledged? || fate.Unseen? then Some(DecideNext(p, CtlOf(y, o), ans).op) else None
    case Take(o, check, until, fate) =>
      if fate.Acknowledged? || fate.Unseen? then Some(Acquire(o, check, until)) else None
    case Outside(op) => Some(op)
    case _ => None
  }

  lemma ClosureMoves(p: Policy, y: Sys, l: Label)
    requires Inv(y) && Can(p, y, l)
    ensures var op := ClosureOf(p, y, l);
            && (op.Some? ==> Fits(y.s, op.value))
            && (Do(p, y, l).s == y.s
                || (op.Some? && Mutate(y.s, op.value).Commit? && Do(p, y, l).s == Mutate(y.s, op.value).next))
            && (op.Some? && op.value.Finalize? && Mutate(y.s, op.value).Commit? ==>
                  Do(p, y, l).s == Mutate(y.s, op.value).next)
  {
    hide DecideNext;
    hide PhaseOk;
    hide Fenced;
    hide WorkersOk;
    hide RoutesOk;
    hide Fits;
    hide Mutate;
    match l
    case Store(_, _, _, _) => WritesFit(p, y, l);
    case Take(o, check, until, _) => OutsidersFit(y.s, Acquire(o, check, until));
    case Outside(op) => OutsidersFit(y.s, op);
    case _ =>
  }

  /**
   * In every run a digest is queued at most once, and not while it is stable,
   * processed or being released; and the release was eligible when it started.
   */
  lemma {:induction false} RunKeepsQueue(p: Policy, base: Image, ys: seq<Sys>, ls: seq<Label>, i: nat)
    requires IsRun(p, base, ys, ls) && i <= |ls|
    ensures QueueOk(ys[i].s) && ClaimedOk(ys[i].s)
  {
    hide Do;
    hide Can;
    if i > 0 {
      RunKeepsQueue(p, base, ys, ls, i - 1);
      RunKeepsInv(p, base, ys, ls, i - 1);
      ClosureMoves(p, ys[i - 1], ls[i - 1]);
      var op := ClosureOf(p, ys[i - 1], ls[i - 1]);
      assert PhaseOk(ys[i - 1].s);
      hide Inv;
      hide PhaseOk;
      hide QueueOk;
      hide ClaimedOk;
      hide ClosureOf;
      if op.Some? && Mutate(ys[i - 1].s, op.value).Commit? {
        FittingKeepsQueue(ys[i - 1].s, op.value);
        FittingKeepsClaimed(ys[i - 1].s, op.value);
      }
      hide Mutate;
      hide Fits;
    }
  }

  /** In any run, whatever the times are, stable goes back exactly at the steps that finalize an early rebuild. */
  lemma RegressesExactly(p: Policy, base: Image, ys: seq<Sys>, ls: seq<Label>, i: nat)
    requires IsRun(p, base, ys, ls) && i < |ls|
    ensures var op := ClosureOf(p, ys[i], ls[i]);
            NoNewer(ys[i].s.stable, ys[i + 1].s.stable)
            <==> !(op.Some? && op.value.Finalize? && EarlyRebuild(ys[i].s.stable, op.value.image))
  {
    hide Do;
    RunKeepsInv(p, base, ys, ls, i);
    RunKeepsQueue(p, base, ys, ls, i);
    ClosureMoves(p, ys[i], ls[i]);
    var op := ClosureOf(p, ys[i], ls[i]);
    assert PhaseOk(ys[i].s);
    hide Inv;
    hide PhaseOk;
    hide ClaimedOk;
    hide ClosureOf;
    if op.Some? {
      if op.value.Finalize? {
        FinalizeCommits(ys[i].s, op.value);
      }
      if Mutate(ys[i].s, op.value).Commit? {
        StableRegressesExactly(ys[i].s, op.value);
      }
    }
    hide Mutate;
    hide Fits;
  }

  lemma FinalizeCommits(s: Record, op: Op)
    requires op.Finalize? && Fits(s, op)
    ensures Mutate(s, op).Commit?
  {
  }

  lemma {:induction false} RunKeepsTimes(p: Policy, base: Image, ys: seq<Sys>, ls: seq<Label>, i: nat)
    requires IsRun(p, base, ys, ls) && base.time >= 0.0 && i <= |ls|
    requires forall k :: 0 <= k < |ls| ==> Timely(ls[k])
    ensures TimesOk(ys[i].s)
  {
    hide Do;
    hide Can;
    if i > 0 {
      RunKeepsTimes(p, base, ys, ls, i - 1);
      RunKeepsInv(p, base, ys, ls, i - 1);
      StepKeepsStable(p, ys[i - 1], ls[i - 1]);
    }
  }

  /** Over whole runs without times before the epoch, stable never goes back in (version, time). */
  lemma {:induction false} StableNeverRegresses(p: Policy, base: Image, ys: seq<Sys>, ls: seq<Label>, i: nat, j: nat)
    requires IsRun(p, base, ys, ls) && base.time >= 0.0 && i <= j <= |ls|
    requires forall k :: 0 <= k < |ls| ==> Timely(ls[k])
    ensures NoNewer(ys[i].s.stable, ys[j].s.stable)
  {
    hide Do;
    hide Can;
    if i < j {
      StableNeverRegresses(p, base, ys, ls, i, j - 1);
      RunKeepsTimes(p, base, ys, ls, j - 1);
      RunKeepsInv(p, base, ys, ls, j - 1);
      StepKeepsStable(p, ys[j - 1], ls[j - 1]);
    }
  }

  // ----- the margin of the guard ---------------------------------------------------------------------

  /** A step that first checks the lease, at the reading `now`. */
  predicate ChecksLease(l: Label) {
    l.Read? || l.Rewrite? || l.Reread? || l.Store?
  }

  /** How long the lease has to last after that reading; a write only needs an unexpired one. */
  function Margin(l: Label): Time {
    if l.Store? then 0.0 else 10.0
  }

  /** One clock: no take up to step j reads later than it, and the owner of step i takes only later, for a minute. */
  predicate OneClock(ls: seq<Label>, i: nat, j: nat)
    requires i < j < |ls| && ChecksLease(ls[i]) && ls[j].Take?
  {
    forall k :: i < k < j && ls[k].Take? ==>
      if ls[k].o == ls[i].o then ls[i].now <= ls[k].check && ls[k].check + 60.0 <= ls[k].until
      else ls[k].check <= ls[j].check
  }

  predicate HeldPast(s: Record, o: Owner, t: Time) {
    s.lease.Some? && s.lease.value.owner == o && s.lease.value.until > t
  }

  lemma OnlyTakesMoveLease(p: Policy, y: Sys, l: Label)
    requires Can(p, y, l) && !l.Take?
    ensures Do(p, y, l).s.lease == y.s.lease
  {
    hide DecideRamp;
    if l.Store? {
      var op := DecideNext(p, CtlOf(y, l.o), l.ans).op;
      if Mutate(y.s, op).Commit? {
        RouteMoves(y.s, op);
      }
    } else if l.Outside? && Mutate(y.s, l.op).Commit? {
      RouteMoves(y.s, l.op);
    }
    hide Mutate;
    hide AfterStore;
  }

  lemma TakeRespectsLease(p: Policy, y: Sys, l: Label, o: Owner, t: Time)
    requires Can(p, y, l) && l.Take? && HeldPast(y.s, o, t)
    requires if l.o == o then l.until > t else l.check <= t
    ensures HeldPast(Do(p, y, l).s, o, t) && (l.o != o ==> Do(p, y, l).s.lease == y.s.lease)
  {
  }

  lemma CheckMeans(p: Policy, y: Sys, l: Label)
    requires Can(p, y, l) && ChecksLease(l)
    ensures HeldPast(y.s, l.o, l.now + Margin(l))
  {
    hide DecideNext;
  }

  lemma {:induction false} LeaseOutlastsCheck(p: Policy, base: Image, ys: seq<Sys>, ls: seq<Label>,
                                              i: nat, k: nat, j: nat)
    requires IsRun(p, base, ys, ls) && i < k <= j < |ls| && ChecksLease(ls[i]) && ls[j].Take? && OneClock(ls, i, j)
    requires ls[j].o != ls[i].o && ls[j].check <= ls[i].now + Margin(ls[i])
    ensures HeldPast(ys[k].s, ls[i].o, ls[i].now + Margin(ls[i]))
    decreases k
  {
    hide Do;
    var l := ls[k - 1];
    if k == i + 1 {
      OnlyTakesMoveLease(p, ys[i], ls[i]);
      CheckMeans(p, ys[i], ls[i]);
    } else {
      LeaseOutlastsCheck(p, base, ys, ls, i, k - 1, j);
      if l.Take? {
        TakeRespectsLease(p, ys[k - 1], l, ls[i].o, ls[i].now + Margin(ls[i]));
      } else {
        OnlyTakesMoveLease(p, ys[k - 1], l);
      }
    }
    hide Can;
  }

  /**
   * With one clock, no other owner gets the lease within ten seconds of a
   * legacy controller's checked read or lane rewrite, nor at the reading of a
   * checked write.
   */
  lemma LeaseIsKeptForTenSeconds(p: Policy, base: Image, ys: seq<Sys>, ls: seq<Label>, i: nat, j: nat)
    requires IsRun(p, base, ys, ls) && i < j < |ls| && ChecksLease(ls[i]) && ls[j].Take? && OneClock(ls, i, j)
    requires ls[j].o != ls[i].o && ls[j].check <= ls[i].now + Margin(ls[i])
    ensures ys[j + 1].s.lease == ys[j].s.lease
    ensures ys[j].s.lease.Some? && ys[j].s.lease.value.owner == ls[i].o
  {
    LeaseOutlastsCheck(p, base, ys, ls, i, j, j);
    hide Do;
    TakeRespectsLease(p, ys[j], ls[j], ls[i].o, ls[i].now + Margin(ls[i]));
    hide Can;
  }

  // ----- every finalized image earned its stages -------------------------------------------------------

  const STAGES: seq<nat> := [10, 25, 50, 100]

  function StageIndex(weight: nat): (n: nat)
    ensures n <= 3
  {
    if weight == 10 then 0 else if weight == 25 then 1 else if weight == 50 then 2 else 3
  }

  /** The step promotes this image from this weight, by a committed write of a tick that earned it. */
  predicate Promotes(p: Policy, y: Sys, l: Label, image: Image, weight: nat) {
    && l.Store? && (l.fate.Acknowledged? || l.fate.Unseen?)
    && var c := CtlOf(y, l.o);
    && Earned(p, c, l.ans) && c.snap.active == y.s.active && c.snap.route == y.s.route
    && y.s.active.value.image == image && y.s.route.weight == weight
  }

  /** How a step reaches RAMP or FINALIZING. */
  ghost predicate Approaches(p: Policy, y: Sys, l: Label, z: Sys)
    requires z.s.active.Some?
  {
    var image := z.s.active.value.image;
    || (y.s.active.Some? && y.s.active.value.image == image && y.s.active.value.phase == z.s.active.value.phase
        && y.s.route.weight == z.s.route.weight)
    || (InPhase(z.s, Ramp) && z.s.route.weight == 10)
    || (InPhase(y.s, Ramp) && InPhase(z.s, Ramp) && IsStage(y.s.route.weight) && y.s.route.weight < 100
        && z.s.route.weight == NextWeight(y.s.route.weight) && Promotes(p, y, l, image, y.s.route.weight))
    || (InPhase(y.s, Ramp) && InPhase(z.s, Finalizing) && Promotes(p, y, l, image, 100))
  }

  lemma StepApproaches(p: Policy, y: Sys, l: Label)
    requires Inv(y) && Can(p, y, l)
    requires InPhase(Do(p, y, l).s, Ramp) || InPhase(Do(p, y, l).s, Finalizing)
    ensures Approaches(p, y, l, Do(p, y, l))
  {
    var z := Do(p, y, l);
    ClosureMoves(p, y, l);
    var op := ClosureOf(p, y, l);
    assert PhaseOk(y.s);
    if z.s != y.s {
      if ByController(op.value) {
        WriteApproaches(p, y, l);
      } else {
        RouteMoves(y.s, op.value);
      }
    }
    hide Inv;
    hide Do;
    hide Can;
    hide Mutate;
    hide ClosureOf;
    hide Promotes;
    hide PhaseOk;
    hide Fits;
  }

  lemma WriteApproaches(p: Policy, y: Sys, l: Label)
    requires Inv(y) && l.Store? && Can(p, y, l) && (l.fate.Acknowledged? || l.fate.Unseen?)
    requires Mutate(y.s, DecideNext(p, CtlOf(y, l.o), l.ans).op).Commit?
    requires var z := Mutate(y.s, DecideNext(p, CtlOf(y, l.o), l.ans).op).next;
             (InPhase(z, Ramp) || InPhase(z, Finalizing)) && Do(p, y, l).s == z
    ensures Approaches(p, y, l, Do(p, y, l))
  {
    hide Do;
    hide DecideNext;
    hide Earned;
    hide RoutesOk;
    WritesFit(p, y, l);
    var c := CtlOf(y, l.o);
    var op := DecideNext(p, c, l.ans).op;
    assert WorkOk(c) && PhaseOk(y.s);
    hide Inv;
    if op.Advance? || op.EnterFinalizing? {
      PromotionIsEarned(p, c, l.ans);
      EarnedIsRamp(p, c, l.ans);
      assert c.pos.Start? || c.pos.Ensured?;
    }
    hide Can;
    hide ClaimOp;
  }

  lemma EarnedIsRamp(p: Policy, c: Ctl, ans: Answers)
    requires Earned(p, c, ans)
    ensures c.Working? && InPhase(c.snap, Ramp) && !c.pos.Failing?
  {
  }

  /** The stages that the release in RAMP or FINALIZING has passed, by their steps in the run. */
  ghost predicate Passed(p: Policy, ys: seq<Sys>, ls: seq<Label>, i: nat, ks: seq<nat>)
    requires i < |ys| <= |ls| + 1
  {
    && ys[i].s.active.Some?
    && |ks| == (if InPhase(ys[i].s, Finalizing) then 4 else StageIndex(ys[i].s.route.weight))
    && (forall n :: 0 <= n < |ks| ==>
          ks[n] < i && Promotes(p, ys[ks[n]], ls[ks[n]], ys[i].s.active.value.image, STAGES[n]))
    && (forall m, n :: 0 <= m < n < |ks| ==> ks[m] < ks[n])
    && (ks != [] ==>
          forall k :: ks[0] <= k <= i ==>
            ys[k].s.active.Some? && ys[k].s.active.value.image == ys[i].s.active.value.image)
  }

  /** A run up to a release in RAMP or FINALIZING contains a promoting step for each stage before. */
  lemma {:induction false} RunPassed(p: Policy, base: Image, ys: seq<Sys>, ls: seq<Label>, i: nat)
    returns (ks: seq<nat>)
    requires IsRun(p, base, ys, ls) && i <= |ls|
    requires InPhase(ys[i].s, Ramp) || InPhase(ys[i].s, Finalizing)
    ensures Passed(p, ys, ls, i, ks)
    decreases i
  {
    hide Promotes;
    hide Do;
    hide Can;
    hide Inv;
    var y, z, l := ys[i - 1], ys[i], ls[i - 1];
    RunKeepsInv(p, base, ys, ls, i - 1);
    StepApproaches(p, y, l);
    var image := z.s.active.value.image;
    if y.s.active.Some? && y.s.active.value.image == image && y.s.active.value.phase == z.s.active.value.phase
       && y.s.route.weight == z.s.route.weight {
      ks := RunPassed(p, base, ys, ls, i - 1);
    } else if InPhase(z.s, Ramp) && z.s.route.weight == 10 {
      ks := [];
    } else {
      var before := RunPassed(p, base, ys, ls, i - 1);
      ks := before + [i - 1];
      PromoterIsThere(p, y, l, image, if InPhase(z.s, Finalizing) then 100 else y.s.route.weight);
      OneMoreStage(p, ys, ls, i, before);
    }
  }

  lemma PromoterIsThere(p: Policy, y: Sys, l: Label, image: Image, weight: nat)
    requires Promotes(p, y, l, image, weight)
    ensures y.s.active.Some? && y.s.active.value.image == image && y.s.route.weight == weight
  {
    EarnedIsRamp(p, CtlOf(y, l.o), l.ans);
    hide Earned;
  }

  lemma OneMoreStage(p: Policy, ys: seq<Sys>, ls: seq<Label>, i: nat, before: seq<nat>)
    requires 0 < i < |ys| <= |ls| + 1 && Passed(p, ys, ls, i - 1, before) && ys[i].s.active.Some?
    requires var y, z := ys[i - 1], ys[i];
             var image := z.s.active.value.image;
             && InPhase(y.s, Ramp) && IsStage(y.s.route.weight) && y.s.active.value.image == image
             && Promotes(p, y, ls[i - 1], image, y.s.route.weight)
             && (if y.s.route.weight == 100 then InPhase(z.s, Finalizing)
                 else InPhase(z.s, Ramp) && z.s.route.weight == NextWeight(y.s.route.weight))
    ensures Passed(p, ys, ls, i, before + [i - 1])
  {
    hide Promotes;
    var w := ys[i - 1].s.route.weight;
    assert STAGES[StageIndex(w)] == w;
  }

  /** The step marks the stage at this reading of the clock. */
  predicate Marks(p: Policy, y: Sys, l: Label, since: Time) {
    && l.Store? && (l.fate.Acknowledged? || l.fate.Unseen?)
    && CtlOf(y, l.o).Working? && DecideNext(p, CtlOf(y, l.o), l.ans) == Write(MarkStage(since)) && since == l.ans.later
  }

  lemma OutsidersKeepRelease(s: Record, op: Op)
    requires !ByController(op) && Mutate(s, op).Commit?
    ensures Mutate(s, op).next.active == s.active && Mutate(s, op).next.route == s.route
  {
    hide Decide;
  }

  /** A stage that is marked after a step was marked before it, or by it. */
  lemma StepMarks(p: Policy, y: Sys, l: Label)
    requires Inv(y) && Can(p, y, l)
    requires InPhase(Do(p, y, l).s, Ramp) && Do(p, y, l).s.active.value.stageSince.Some?
    ensures var a := Do(p, y, l).s.active.value;
            && Do(p, y, l).s.route == y.s.route && y.s.active.Some?
            && (y.s.active.value == a
                || (Marks(p, y, l, a.stageSince.value) && a == y.s.active.value.(stageSince := a.stageSince)))
  {
    var z := Do(p, y, l);
    ClosureMoves(p, y, l);
    var op := ClosureOf(p, y, l);
    assert PhaseOk(y.s);
    hide Inv;
    hide Do;
    hide DecideNext;
    if z.s != y.s {
      if !ByController(op.value) {
        OutsidersKeepRelease(y.s, op.value);
      } else {
        assert l.Store? && op.value == DecideNext(p, CtlOf(y, l.o), l.ans).op;
        StampsOwnReading(p, CtlOf(y, l.o), l.ans);
        if y.s.active.Some? {
          FittingExactly(y.s, op.value);
        }
      }
    }
    hide Can;
    hide ClosureOf;
    hide PhaseOk;
    hide Fits;
  }

  lemma StampsOwnReading(p: Policy, c: Ctl, ans: Answers)
    requires c.Working? && DecideNext(p, c, ans).Write?
    ensures DecideNext(p, c, ans).op.MarkStage? ==> DecideNext(p, c, ans).op.since == ans.later
  {
  }

  /** In every run a marked stage was marked by a step of that stage, and nothing has touched it since. */
  lemma {:induction false} RunMarked(p: Policy, base: Image, ys: seq<Sys>, ls: seq<Label>, i: nat) returns (m: nat)
    requires IsRun(p, base, ys, ls) && i <= |ls|
    requires InPhase(ys[i].s, Ramp) && ys[i].s.active.value.stageSince.Some?
    ensures m < i && Marks(p, ys[m], ls[m], ys[i].s.active.value.stageSince.value) && ys[m].s.route == ys[i].s.route
    ensures forall k :: m < k <= i ==> ys[k].s.active == ys[i].s.active && ys[k].s.route == ys[i].s.route
    decreases i
  {
    hide Marks;
    hide Do;
    hide Can;
    hide Inv;
    RunKeepsInv(p, base, ys, ls, i - 1);
    StepMarks(p, ys[i - 1], ls[i - 1]);
    if ys[i - 1].s.active == ys[i].s.active {
      m := RunMarked(p, base, ys, ls, i - 1);
    } else {
      m := i - 1;
    }
  }

  /** Tick k promoted at stage n, a dwell time after tick m of that stage, and not of the one before, had marked it. */
  ghost predicate Dwelt(p: Policy, ys: seq<Sys>, ls: seq<Label>, m: nat, k: nat)
    requires |ys| == |ls| + 1
  {
    && m < k < |ls| && ls[k].Store? && ls[m].Store? && Marks(p, ys[m], ls[m], ls[m].ans.later)
    && ls[k].ans.now >= ls[m].ans.later + p.dwell && ys[m].s.route == ys[k].s.route
    && forall j :: m < j <= k ==> ys[j].s.route == ys[k].s.route
  }

  lemma PromoterDwelt(p: Policy, base: Image, ys: seq<Sys>, ls: seq<Label>, k: nat, image: Image, weight: nat)
    returns (m: nat)
    requires IsRun(p, base, ys, ls) && k < |ls| && Promotes(p, ys[k], ls[k], image, weight)
    ensures Dwelt(p, ys, ls, m, k)
  {
    hide Do;
    hide Can;
    hide DecideNext;
    m := RunMarked(p, base, ys, ls, k);
    hide IsRun;
  }

  /**
   * No image becomes stable unearned: before its finalization, four ticks have
   * promoted this very release from 10, 25, 50 and 100 per cent, each with both
   * lanes ready, an acknowledgement of the route, enough traffic and every
   * metric within its limit, and each a whole dwell time after some tick had
   * marked just this stage, so the four dwell times lie one after another.
   */
  lemma EveryFinalizedEarnedIt(p: Policy, base: Image, ys: seq<Sys>, ls: seq<Label>, i: nat)
    returns (ks: seq<nat>, ms: seq<nat>)
    requires IsRun(p, base, ys, ls) && i < |ls|
    requires var op := ClosureOf(p, ys[i], ls[i]); op.Some? && op.value.Finalize?
    ensures InPhase(ys[i].s, Finalizing) && ClosureOf(p, ys[i], ls[i]).value.image == ys[i].s.active.value.image
    ensures ys[i + 1].s.stable == ys[i].s.active.value.image
    ensures |ks| == |ms| == 4 && Passed(p, ys, ls, i, ks)
    ensures forall n :: 0 <= n < 4 ==> Dwelt(p, ys, ls, ms[n], ks[n])
    ensures forall n :: 0 < n < 4 ==> ks[n - 1] < ms[n]
  {
    hide Inv;
    hide Promotes;
    hide ClosureOf;
    hide Do;
    RunKeepsInv(p, base, ys, ls, i);
    ClosureMoves(p, ys[i], ls[i]);
    ks := RunPassed(p, base, ys, ls, i);
    var image := ys[i].s.active.value.image;
    var m0 := PromoterDwelt(p, base, ys, ls, ks[0], image, 10);
    var m1 := PromoterDwelt(p, base, ys, ls, ks[1], image, 25);
    var m2 := PromoterDwelt(p, base, ys, ls, ks[2], image, 50);
    var m3 := PromoterDwelt(p, base, ys, ls, ks[3], image, 100);
    hide IsRun;
    ms := [m0, m1, m2, m3];
    StageAfter(p, ys, ls, ks[0], m1, ks[1], image, 10, 25);
    StageAfter(p, ys, ls, ks[1], m2, ks[2], image, 25, 50);
    StageAfter(p, ys, ls, ks[2], m3, ks[3], image, 50, 100);
  }

  lemma StageAfter(p: Policy, ys: seq<Sys>, ls: seq<Label>, j: nat, m: nat, k: nat, image: Image, v: nat, w: nat)
    requires |ys| == |ls| + 1 && j < k < |ls| && v != w && Dwelt(p, ys, ls, m, k)
    requires Promotes(p, ys[j], ls[j], image, v) && Promotes(p, ys[k], ls[k], image, w)
    ensures j < m
  {
    hide Earned;
    hide Marks;
  }
}
