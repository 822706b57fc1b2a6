/**
 * What one controller tick does next, from its snapshot, the answers of the
 * outside calls it makes, and its clock readings.
 */
module Decisions {
  import opened Bounded
  import opened ReleaseState
  import opened Authorization
  import opened Mutators
  import opened Lifecycle

  datatype Policy = Policy(minimum: real, dwell: Time, timeout: Time, errorLimit: real, p95Limit: real)

  predicate ValidPolicy(p: Policy) {
    p.minimum >= 1.0 && 0.0 <= p.dwell < p.timeout && 0.0 < p.errorLimit <= 1.0 && p.p95Limit > 0.0
  }

  /** A metric sample; Undefined is a missing, NaN or infinite sample. */
  datatype Num = Undefined | Val(v: real)
  datatype Metrics = Metrics(up: Num, age: Num, traffic: Num, success: Num, errors: Num, p95: Num, stableErrors: Num)

  /** Joined with commas in the durable reason. */
  function Join(words: seq<string>): string {
    if words == [] then "" else if |words| == 1 then words[0] else words[0] + "," + Join(words[1..])
  }

  function AddIf(reasons: seq<string>, bad: bool, reason: string): (more: seq<string>)
    ensures more == [] <==> reasons == [] && !bad
  {
    if bad then reasons + [reason] else reasons
  }

  function Assess(m: Metrics, errorLimit: real, p95Limit: real): seq<string> {
    if m.up.Undefined? || m.age.Undefined? || m.traffic.Undefined? || m.success.Undefined? || m.errors.Undefined?
       || m.p95.Undefined? || m.stableErrors.Undefined?
    then ["invalid_canary_metrics"]
    else
      var r1 := AddIf([], m.up.v != 1.0 || !(0.0 <= m.age.v <= 15.0), "router_unavailable_or_stale");
      var r2 := AddIf(r1, m.traffic.v <= 0.0, "no_real_canary_traffic");
      var r3 := AddIf(r2, m.success.v <= 0.0, "no_successful_canary_predictions");
      var r4 := AddIf(r3, !(0.0 <= m.errors.v < errorLimit), "canary_errors");
      var r5 := AddIf(r4, !(0.0 <= m.stableErrors.v < errorLimit), "stable_errors");
      AddIf(r5, !(0.0 <= m.p95.v < p95Limit), "canary_latency")
  }

  /** The router's own account of its cached route. */
  datatype Report = Report(ready: bool, route: Route)

  predicate Ack(seen: Report, route: Route) {
    seen.ready && seen.route == route
  }

  /** Raised by an outside call, by a read, or by a write whose fate is unknown. */
  datatype Exn = Transport | Http | Invalid | Unexpected

  /**
   * Where the tick is: Start and Ensured are before and after the guarded lane
   * rewrite; Zeroed, Restoring and Compared follow the forced zero weight of a
   * recovery; Failing is the exception handler.
   */
  datatype Pos = Start | Ensured | Zeroed | Restoring | Compared(route: Route) | Failing(exn: Exn)

  datatype Answers = Answers(canaryReady: bool, stableReady: bool, metrics: Metrics,
                             now: Time, dwellNow: Time, closureNow: Time)

  datatype Lane = Canary | Stable
  datatype Decision = Stop | Rewrite(lane: Lane, target: Serving) | Look | AskRouter | Write(op: Op)

  predicate Expired(a: Active, ans: Answers) {
    ans.now >= a.deadline
  }

  /** Deadlines and stage starts are taken from the reading made inside the closure. */
  predicate StampedBy(op: Op, p: Policy, ans: Answers) {
    && (op.Claim? || op.BeginRollback? || op.Arm? || op.Promote? || op.CommitStable? ==>
          op.deadline == ans.closureNow + p.timeout)
    && (op.MarkStage? ==> op.since == ans.closureNow)
  }

  function RollbackFor(p: Policy, reason: string, ans: Answers): Decision {
    Write(BeginRollback(reason, ans.closureNow + p.timeout))
  }

  function BlockIfExpired(a: Active, ans: Answers): Decision {
    if Expired(a, ans) then Write(Block) else Stop
  }

  function DecidePreparing(p: Policy, a: Active, ans: Answers): (d: Decision)
    ensures d.Stop? || (d.Write? && (d.op.BeginRollback? || d.op.Arm?) && StampedBy(d.op, p, ans))
    ensures Expired(a, ans) ==> d.Write? && d.op.BeginRollback?
    ensures d.Write? && d.op.Arm? ==> ans.canaryReady
  {
    if Expired(a, ans) then RollbackFor(p, "candidate_readiness_timeout", ans)
    else if ans.canaryReady then Write(Arm(ans.closureNow + p.timeout))
    else Stop
  }

  /** Everything that has to hold before a stage is promoted. */
  predicate Earned(p: Policy, a: Active, route: Route, seen: Option<Report>, ans: Answers) {
    && ans.canaryReady && ans.stableReady
    && seen.Some? && Ack(seen.value, route)
    && !Expired(a, ans)
    && a.stageSince.Some? && ans.dwellNow - a.stageSince.value >= p.dwell
    && Assess(ans.metrics, p.errorLimit, p.p95Limit) == []
    && ans.metrics.traffic.Val? && ans.metrics.traffic.v >= p.minimum
  }

  function DecideRamp(p: Policy, a: Active, route: Route, seen: Option<Report>, ans: Answers): (d: Decision)
    ensures d.Stop? || d.AskRouter? || d.Write?
    ensures d.Write? ==> (d.op.BeginRollback? || d.op.MarkStage? || d.op.Promote?) && StampedBy(d.op, p, ans)
    ensures d.Write? && d.op.Promote? ==> d.op.weight == route.weight && Earned(p, a, route, seen, ans)
    ensures d.Write? && d.op.MarkStage? ==> seen.Some? && Ack(seen.value, route) && !Expired(a, ans)
    ensures Expired(a, ans) && !d.AskRouter? ==> d.Write? && d.op.BeginRollback?
  {
    var m := ans.metrics;
    if !ans.canaryReady || !ans.stableReady then RollbackFor(p, "backend_unhealthy", ans)
    else if seen.None? then AskRouter
    else if !Ack(seen.value, route) then
      if Expired(a, ans) then RollbackFor(p, "router_ack_timeout", ans) else Stop
    else if a.stageSince.None? then
      if Expired(a, ans) then RollbackFor(p, "stage_deadline_exceeded", ans) else Write(MarkStage(ans.closureNow))
    else if m.up.Undefined? || m.age.Undefined? || m.traffic.Undefined? || m.traffic.v < 0.0 then
      RollbackFor(p, "invalid_canary_metrics", ans)
    else if m.up.v != 1.0 || !(0.0 <= m.age.v <= 15.0) then RollbackFor(p, "router_unavailable_or_stale", ans)
    else if m.traffic.v < p.minimum then
      if Expired(a, ans) then RollbackFor(p, "insufficient_canary_traffic", ans) else Stop
    else if Assess(m, p.errorLimit, p.p95Limit) != [] then
      RollbackFor(p, Join(Assess(m, p.errorLimit, p.p95Limit)), ans)
    else if Expired(a, ans) then RollbackFor(p, "stage_deadline_exceeded", ans)
    else if ans.dwellNow - a.stageSince.value < p.dwell then Stop
    else Write(Promote(route.weight, ans.closureNow + p.timeout))
  }

  function DecideFinalizing(p: Policy, a: Active, ans: Answers): (d: Decision)
    ensures d.Stop? || (d.Write? && (d.op.BeginRollback? || d.op.CommitStable?) && StampedBy(d.op, p, ans))
    ensures Expired(a, ans) ==> d.Write? && d.op.BeginRollback?
    ensures d.Write? && d.op.CommitStable? ==> d.op.target == a.target && ans.stableReady
  {
    if Expired(a, ans) then RollbackFor(p, "stable_readiness_timeout", ans)
    else if ans.stableReady then Write(CommitStable(a.target, ans.closureNow + p.timeout))
    else Stop
  }

  function DecideDraining(p: Policy, a: Active, route: Route, seen: Option<Report>, ans: Answers): (d: Decision)
    ensures d.Stop? || d.AskRouter? || d.Write?
    ensures d.Write? ==> (d.op.BeginRollback? || d.op.Complete?) && StampedBy(d.op, p, ans)
    ensures d.Write? && d.op.Complete? ==>
              d.op == Complete(a.target.pair, a.auth.hash) && ans.stableReady && seen.Some? && Ack(seen.value, route)
    ensures Expired(a, ans) && !d.AskRouter? ==> d.Write?
  {
    if !ans.stableReady then RollbackFor(p, "stable_unhealthy_during_drain", ans)
    else if seen.None? then AskRouter
    else if !Ack(seen.value, route) then
      if Expired(a, ans) then RollbackFor(p, "drain_router_timeout", ans) else Stop
    else Write(Complete(a.target.pair, a.auth.hash))
  }

  function DecideRecovery(a: Active, pos: Pos, seen: Option<Report>, ans: Answers): (d: Decision)
    requires !pos.Failing?
    ensures d.Write? ==>
              d.op == ForceZero || d.op == Block
              || d.op == Restore(a.previous, a.target.pair, a.reason, a.auth.hash)
    ensures d.Write? && d.op.Restore? ==> pos.Compared? && seen.Some? && Ack(seen.value, pos.route)
    ensures d.Stop? ==> !Expired(a, ans)
    ensures d.Rewrite? ==> d == Rewrite(Stable, a.previous) && pos.Zeroed?
  {
    match pos
    case Start => Write(ForceZero)
    case Zeroed => Rewrite(Stable, a.previous)
    case Compared(route) =>
      if seen.None? then AskRouter
      else if !Ack(seen.value, route) then BlockIfExpired(a, ans)
      else Write(Restore(a.previous, a.target.pair, a.reason, a.auth.hash))
    case _ => if ans.stableReady then Look else BlockIfExpired(a, ans)
  }

  function DecideHandler(p: Policy, a: Active, exn: Exn, ans: Answers): (d: Decision)
    ensures d.Stop? || d.Write?
    ensures d.Stop? ==> !Expired(a, ans)
    ensures d.Write? ==> StampedBy(d.op, p, ans)
    ensures d.Write? ==> if a.phase in {Rollback, Blocked} then d.op.Block? else d.op.BeginRollback?
  {
    if a.phase in {Rollback, Blocked} then BlockIfExpired(a, ans)
    else if exn.Transport? && a.phase == Finalizing then
      if Expired(a, ans) then RollbackFor(p, "stable_backend_unavailable", ans) else Stop
    else if exn.Transport? || exn.Http? then RollbackFor(p, "backend_unavailable", ans)
    else RollbackFor(p, if exn.Invalid? then "invalid_backend_contract" else "effect_failure", ans)
  }

  /** A release that is not recovering must still carry the approval of exactly what it runs. */
  predicate AuthLost(a: Active) {
    a.phase !in {Rollback, Blocked} && !ValidAuth(a.auth, ActiveCandidate(a))
  }

  function Decide(p: Policy, snap: State, pos: Pos, seen: Option<Report>, ans: Answers): (d: Decision)
    ensures d.Write? ==> ByController(d.op) && StampedBy(d.op, p, ans)
    ensures d.Stop? ==> snap.active.Some? && !Expired(snap.active.value, ans)
  {
    match snap.active
    case None => Write(Claim(ans.now, ans.closureNow + p.timeout))
    case Some(a) =>
      if pos.Failing? then DecideHandler(p, a, pos.exn, ans)
      else if AuthLost(a) then RollbackFor(p, "missing_release_authorization", ans)
      else
        match a.phase
        case Preparing => if pos.Start? then Rewrite(Canary, a.target) else DecidePreparing(p, a, ans)
        case Ramp => DecideRamp(p, a, snap.route, seen, ans)
        case Finalizing => if pos.Start? then Rewrite(Stable, a.target) else DecideFinalizing(p, a, ans)
        case Draining => DecideDraining(p, a, snap.route, seen, ans)
        case _ => DecideRecovery(a, pos, seen, ans)
  }

  // ----- what a decision says about its inputs -----------------------------------

  /** A promotion has seen healthy, defined metrics: an empty assessment says all of this. */
  lemma EmptyAssessmentIsHealthy(m: Metrics, errorLimit: real, p95Limit: real)
    ensures Assess(m, errorLimit, p95Limit) == [] <==>
              && m.up == Val(1.0) && m.age.Val? && 0.0 <= m.age.v <= 15.0
              && m.traffic.Val? && m.traffic.v > 0.0 && m.success.Val? && m.success.v > 0.0
              && m.errors.Val? && 0.0 <= m.errors.v < errorLimit
              && m.stableErrors.Val? && 0.0 <= m.stableErrors.v < errorLimit
              && m.p95.Val? && 0.0 <= m.p95.v < p95Limit
  {
  }

  /** A stage is only promoted after a matching acknowledgement, healthy metrics and the whole dwell time. */
  lemma PromotionIsEarned(p: Policy, snap: State, pos: Pos, seen: Option<Report>, ans: Answers)
    requires Decide(p, snap, pos, seen, ans).Write? && Decide(p, snap, pos, seen, ans).op.Promote?
    ensures InPhase(snap, Ramp) && !pos.Failing? && Earned(p, snap.active.value, snap.route, seen, ans)
    ensures Decide(p, snap, pos, seen, ans).op.weight == snap.route.weight
  {
    hide DecidePreparing;
    hide DecideRamp;
    hide DecideFinalizing;
    hide DecideDraining;
    hide DecideRecovery;
    hide DecideHandler;
  }

  /** A stage whose deadline has passed is left, never prolonged: the tick writes a way out. */
  lemma ExpiredStageIsLeft(p: Policy, snap: State, pos: Pos, seen: Option<Report>, ans: Answers)
    requires snap.active.Some? && Expired(snap.active.value, ans)
    requires Decide(p, snap, pos, seen, ans).Write?
    ensures var op := Decide(p, snap, pos, seen, ans).op;
            op.BeginRollback? || op.Block? || op.ForceZero? || op.Complete? || op.Restore?
    ensures Decide(p, snap, pos, seen, ans).op.BeginRollback? ==> !Recovering(snap)
  {
    hide DecidePreparing;
    hide DecideRamp;
    hide DecideFinalizing;
    hide DecideDraining;
    hide DecideRecovery;
    hide DecideHandler;
  }

  // ----- exactly when, in terms of the inputs -------------------------------------

  /** The router reports ready, with exactly this weight and revision. */
  predicate Acknowledges(seen: Option<Report>, route: Route) {
    seen.Some? && seen.value.ready
    && seen.value.route.weight == route.weight && seen.value.route.revision == route.revision
  }

  /** The router is scraped, fresh, and its traffic is counted. */
  predicate Sampled(m: Metrics) {
    m.up == Val(1.0) && m.age.Val? && 0.0 <= m.age.v <= 15.0 && m.traffic.Val? && m.traffic.v >= 0.0
  }

  /** Every metric is defined and within its limit. */
  predicate InLimits(m: Metrics, errorLimit: real, p95Limit: real) {
    && m.up == Val(1.0) && m.age.Val? && 0.0 <= m.age.v <= 15.0
    && m.traffic.Val? && m.traffic.v > 0.0 && m.success.Val? && m.success.v > 0.0
    && m.errors.Val? && 0.0 <= m.errors.v < errorLimit
    && m.stableErrors.Val? && 0.0 <= m.stableErrors.v < errorLimit
    && m.p95.Val? && 0.0 <= m.p95.v < p95Limit
  }

  /** The tick asks for a rollback, with a fresh deadline. */
  predicate RollsBackNow(p: Policy, d: Decision, ans: Answers) {
    d.Write? && d.op.BeginRollback? && d.op.deadline == ans.closureNow + p.timeout
  }

  predicate RollsBackFor(p: Policy, d: Decision, ans: Answers, reason: string) {
    RollsBackNow(p, d, ans) && d.op.reason == reason
  }

  /** A release with a valid approval, in a tick that has met no exception. */
  predicate Normal(s: State, phase: Phase, pos: Pos) {
    InPhase(s, phase) && !pos.Failing? && ValidAuth(s.active.value.auth, ActiveCandidate(s.active.value))
  }

  lemma IdleClaims(p: Policy, s: State, pos: Pos, seen: Option<Report>, ans: Answers)
    requires s.active.None?
    ensures Decide(p, s, pos, seen, ans) == Write(Claim(ans.now, ans.closureNow + p.timeout))
  {
  }

  /** An approval that does not validate ends a release that is not recovering yet. */
  lemma InvalidApprovalRollsBack(p: Policy, s: State, pos: Pos, seen: Option<Report>, ans: Answers)
    requires s.active.Some? && !Recovering(s) && !pos.Failing?
    requires !ValidAuth(s.active.value.auth, ActiveCandidate(s.active.value))
    ensures RollsBackFor(p, Decide(p, s, pos, seen, ans), ans, "missing_release_authorization")
  {
    hide ValidAuth;
  }

  lemma PreparingExactly(p: Policy, s: State, pos: Pos, seen: Option<Report>, ans: Answers)
    requires Normal(s, Preparing, pos)
    ensures var d, a := Decide(p, s, pos, seen, ans), s.active.value;
            && (pos.Start? <==> d == Rewrite(Canary, a.target))
            && (d.Stop? <==> !pos.Start? && ans.now < a.deadline && !ans.canaryReady)
            && (d == Write(Arm(ans.closureNow + p.timeout))
                <==> !pos.Start? && ans.now < a.deadline && ans.canaryReady)
            && (RollsBackFor(p, d, ans, "candidate_readiness_timeout") <==> !pos.Start? && ans.now >= a.deadline)
  {
    hide ValidAuth;
  }

  /**
   * A tick in RAMP. It leaves the stage as it is only while both lanes are
   * ready, the deadline is ahead, and it waits for the router, for traffic, or,
   * with a sample within all limits, for the end of the dwell time. Everything
   * else is a mark, a promotion or a rollback.
   */
  lemma RampExactly(p: Policy, s: State, pos: Pos, seen: Option<Report>, ans: Answers)
    requires Normal(s, Ramp, pos)
    ensures var d, a, m := Decide(p, s, pos, seen, ans), s.active.value, ans.metrics;
            var lanes := ans.canaryReady && ans.stableReady;
            var ahead := ans.now < a.deadline;
            var acked := Acknowledges(seen, s.route);
            var enough := Sampled(m) && m.traffic.v >= p.minimum;
            var dwelt := a.stageSince.Some? && ans.dwellNow >= a.stageSince.value + p.dwell;
            && (d.AskRouter? <==> lanes && seen.None?)
            && (d.Stop? <==>
                  lanes && ahead && seen.Some?
                  && (!acked
                      || (a.stageSince.Some? && Sampled(m)
                          && (m.traffic.v < p.minimum || (InLimits(m, p.errorLimit, p.p95Limit) && !dwelt)))))
            && (d == Write(MarkStage(ans.closureNow)) <==> lanes && ahead && acked && a.stageSince.None?)
            && (d == Write(Promote(s.route.weight, ans.closureNow + p.timeout))
                <==> lanes && ahead && acked && dwelt && enough && InLimits(m, p.errorLimit, p.p95Limit))
            && (RollsBackNow(p, d, ans) <==>
                  || !lanes
                  || (seen.Some? && !ahead)
                  || (acked && a.stageSince.Some?
                      && (!Sampled(m) || (m.traffic.v >= p.minimum && !InLimits(m, p.errorLimit, p.p95Limit)))))
  {
    hide ValidAuth;
    EmptyAssessmentIsHealthy(ans.metrics, p.errorLimit, p.p95Limit);
    hide Assess;
  }

  /** Which reasons an assessment lists. */
  lemma AssessmentNames(m: Metrics, errorLimit: real, p95Limit: real)
    ensures var all := Assess(m, errorLimit, p95Limit);
            var defined := m.up.Val? && m.age.Val? && m.traffic.Val? && m.success.Val? && m.errors.Val? && m.p95.Val?
                           && m.stableErrors.Val?;
            && (!defined ==> all == ["invalid_canary_metrics"])
            && (defined ==>
                  && ("router_unavailable_or_stale" in all <==> m.up.v != 1.0 || m.age.v < 0.0 || m.age.v > 15.0)
                  && ("no_real_canary_traffic" in all <==> m.traffic.v <= 0.0)
                  && ("no_successful_canary_predictions" in all <==> m.success.v <= 0.0)
                  && ("canary_errors" in all <==> m.errors.v < 0.0 || m.errors.v >= errorLimit)
                  && ("stable_errors" in all <==> m.stableErrors.v < 0.0 || m.stableErrors.v >= errorLimit)
                  && ("canary_latency" in all <==> m.p95.v < 0.0 || m.p95.v >= p95Limit))
  {
    hide AddIf;
    if m.up.Val? && m.age.Val? && m.traffic.Val? && m.success.Val? && m.errors.Val? && m.p95.Val?
       && m.stableErrors.Val? {
      var b1, b2, b3 := m.up.v != 1.0 || !(0.0 <= m.age.v <= 15.0), m.traffic.v <= 0.0, m.success.v <= 0.0;
      var b4, b5 := !(0.0 <= m.errors.v < errorLimit), !(0.0 <= m.stableErrors.v < errorLimit);
      var b6 := !(0.0 <= m.p95.v < p95Limit);
      assert Assess(m, errorLimit, p95Limit) == SixReasons(b1, b2, b3, b4, b5, b6);
      hide Assess;
      hide SixReasons;
      SixListed(b1, b2, b3, b4, b5, b6);
    }
  }

  function SixReasons(b1: bool, b2: bool, b3: bool, b4: bool, b5: bool, b6: bool): seq<string> {
    var r1 := AddIf([], b1, "router_unavailable_or_stale");
    var r2 := AddIf(r1, b2, "no_real_canary_traffic");
    var r3 := AddIf(r2, b3, "no_successful_canary_predictions");
    var r4 := AddIf(r3, b4, "canary_errors");
    var r5 := AddIf(r4, b5, "stable_errors");
    AddIf(r5, b6, "canary_latency")
  }

  /** Each of six reasons is listed exactly if it applies. */
  lemma SixListed(b1: bool, b2: bool, b3: bool, b4: bool, b5: bool, b6: bool)
    ensures var all := SixReasons(b1, b2, b3, b4, b5, b6);
            && ("router_unavailable_or_stale" in all <==> b1) && ("no_real_canary_traffic" in all <==> b2)
            && ("no_successful_canary_predictions" in all <==> b3) && ("canary_errors" in all <==> b4)
            && ("stable_errors" in all <==> b5) && ("canary_latency" in all <==> b6)
  {
    hide AddIf;
    Listed(b1, b2, b3, b4, b5, b6, "router_unavailable_or_stale");
    Listed(b1, b2, b3, b4, b5, b6, "no_real_canary_traffic");
    Listed(b1, b2, b3, b4, b5, b6, "no_successful_canary_predictions");
    Listed(b1, b2, b3, b4, b5, b6, "canary_errors");
    Listed(b1, b2, b3, b4, b5, b6, "stable_errors");
    Listed(b1, b2, b3, b4, b5, b6, "canary_latency");
    NamesDiffer("router_unavailable_or_stale");
    NamesDiffer("no_real_canary_traffic");
    NamesDiffer("no_successful_canary_predictions");
    NamesDiffer("canary_errors");
    NamesDiffer("stable_errors");
    NamesDiffer("canary_latency");
  }

  lemma Listed(b1: bool, b2: bool, b3: bool, b4: bool, b5: bool, b6: bool, x: string)
    ensures x in SixReasons(b1, b2, b3, b4, b5, b6) <==>
              || (b1 && x == "router_unavailable_or_stale") || (b2 && x == "no_real_canary_traffic")
              || (b3 && x == "no_successful_canary_predictions") || (b4 && x == "canary_errors")
              || (b5 && x == "stable_errors") || (b6 && x == "canary_latency")
  {
    hide AddIf;
    var r1 := AddIf([], b1, "router_unavailable_or_stale");
    var r2 := AddIf(r1, b2, "no_real_canary_traffic");
    var r3 := AddIf(r2, b3, "no_successful_canary_predictions");
    var r4 := AddIf(r3, b4, "canary_errors");
    var r5 := AddIf(r4, b5, "stable_errors");
    AddIfHas([], b1, "router_unavailable_or_stale", x);
    AddIfHas(r1, b2, "no_real_canary_traffic", x);
    AddIfHas(r2, b3, "no_successful_canary_predictions", x);
    AddIfHas(r3, b4, "canary_errors", x);
    AddIfHas(r4, b5, "stable_errors", x);
    AddIfHas(r5, b6, "canary_latency", x);
  }

  lemma AddIfHas(reasons: seq<string>, bad: bool, reason: string, x: string)
    ensures x in AddIf(reasons, bad, reason) <==> x in reasons || (bad && x == reason)
  {
  }

  /** A text is at most one of the six reasons. */
  lemma NamesDiffer(x: string)
    ensures (if x == "router_unavailable_or_stale" then 1 else 0) + (if x == "no_real_canary_traffic" then 1 else 0)
            + (if x == "no_successful_canary_predictions" then 1 else 0) + (if x == "canary_errors" then 1 else 0)
            + (if x == "stable_errors" then 1 else 0) + (if x == "canary_latency" then 1 else 0)
            + (if x == "invalid_canary_metrics" then 1 else 0) <= 1
  {
    assert |"router_unavailable_or_stale"| == 27 && |"no_real_canary_traffic"| == 22
           && |"no_successful_canary_predictions"| == 32 && |"canary_errors"| == 13 && |"stable_errors"| == 13
           && |"canary_latency"| == 14 && |"invalid_canary_metrics"| == 22;
    assert "canary_errors"[0] == 'c' && "stable_errors"[0] == 's';
    assert "invalid_canary_metrics"[0] == 'i' && "no_real_canary_traffic"[0] == 'n';
  }

  /** The reasons that RAMP gives for a rollback. */
  lemma RampReasons(p: Policy, s: State, pos: Pos, seen: Option<Report>, ans: Answers)
    requires Normal(s, Ramp, pos)
    ensures var d, a, m := Decide(p, s, pos, seen, ans), s.active.value, ans.metrics;
            var lanes := ans.canaryReady && ans.stableReady;
            var acked := Acknowledges(seen, s.route);
            && (!lanes ==> RollsBackFor(p, d, ans, "backend_unhealthy"))
            && (lanes && seen.Some? && !acked && ans.now >= a.deadline ==>
                  RollsBackFor(p, d, ans, "router_ack_timeout"))
            && (lanes && acked && a.stageSince.None? && ans.now >= a.deadline ==>
                  RollsBackFor(p, d, ans, "stage_deadline_exceeded"))
            && (lanes && acked && a.stageSince.Some? ==>
                  && (m.up.Undefined? || m.age.Undefined? || m.traffic.Undefined? || m.traffic.v < 0.0 ==>
                        RollsBackFor(p, d, ans, "invalid_canary_metrics"))
                  && (m.up.Val? && m.age.Val? && m.traffic.Val? && m.traffic.v >= 0.0 && !Sampled(m) ==>
                        RollsBackFor(p, d, ans, "router_unavailable_or_stale"))
                  && (Sampled(m) && m.traffic.v < p.minimum && ans.now >= a.deadline ==>
                        RollsBackFor(p, d, ans, "insufficient_canary_traffic"))
                  && (Sampled(m) && m.traffic.v >= p.minimum && InLimits(m, p.errorLimit, p.p95Limit)
                      && ans.now >= a.deadline ==>
                        RollsBackFor(p, d, ans, "stage_deadline_exceeded")))
  {
    hide ValidAuth;
    EmptyAssessmentIsHealthy(ans.metrics, p.errorLimit, p.p95Limit);
    hide Assess;
  }

  lemma FinalizingExactly(p: Policy, s: State, pos: Pos, seen: Option<Report>, ans: Answers)
    requires Normal(s, Finalizing, pos)
    ensures var d, a := Decide(p, s, pos, seen, ans), s.active.value;
            && (pos.Start? <==> d == Rewrite(Stable, a.target))
            && (d.Stop? <==> !pos.Start? && ans.now < a.deadline && !ans.stableReady)
            && (d == Write(CommitStable(a.target, ans.closureNow + p.timeout))
                <==> !pos.Start? && ans.now < a.deadline && ans.stableReady)
            && (RollsBackFor(p, d, ans, "stable_readiness_timeout") <==> !pos.Start? && ans.now >= a.deadline)
  {
    hide ValidAuth;
  }

  /** A drain that the router acknowledges completes even when its deadline has passed. */
  lemma DrainingExactly(p: Policy, s: State, pos: Pos, seen: Option<Report>, ans: Answers)
    requires Normal(s, Draining, pos)
    ensures var d, a := Decide(p, s, pos, seen, ans), s.active.value;
            && (RollsBackFor(p, d, ans, "stable_unhealthy_during_drain") <==> !ans.stableReady)
            && (d.AskRouter? <==> ans.stableReady && seen.None?)
            && (d == Write(Complete(a.target.pair, a.auth.hash)) <==> ans.stableReady && Acknowledges(seen, s.route))
            && (d.Stop? <==>
                  ans.stableReady && seen.Some? && !Acknowledges(seen, s.route) && ans.now < a.deadline)
            && (RollsBackFor(p, d, ans, "drain_router_timeout") <==>
                  ans.stableReady && seen.Some? && !Acknowledges(seen, s.route) && ans.now >= a.deadline)
  {
    hide ValidAuth;
  }

  /** A recovery: weight 0, the stable lane, its readiness, the router, and the end. */
  lemma RecoveryExactly(p: Policy, s: State, pos: Pos, seen: Option<Report>, ans: Answers)
    requires Recovering(s) && !pos.Failing?
    ensures var d, a := Decide(p, s, pos, seen, ans), s.active.value;
            var waits := (pos.Ensured? || pos.Restoring? ==> !ans.stableReady)
                         && (pos.Compared? ==> seen.Some? && !Acknowledges(seen, pos.route));
            && (d == Write(ForceZero) <==> pos.Start?)
            && (d == Rewrite(Stable, a.previous) <==> pos.Zeroed?)
            && (d.Look? <==> (pos.Ensured? || pos.Restoring?) && ans.stableReady)
            && (d.AskRouter? <==> pos.Compared? && seen.None?)
            && (d == Write(Restore(a.previous, a.target.pair, a.reason, a.auth.hash))
                <==> pos.Compared? && Acknowledges(seen, pos.route))
            && (d.Stop? <==> !pos.Start? && !pos.Zeroed? && waits && ans.now < a.deadline)
            && (d == Write(Block) <==> !pos.Start? && !pos.Zeroed? && waits && ans.now >= a.deadline)
  {
    hide ValidAuth;
  }

  /** The exception handler waits only for a recovery, and for a stable lane that cannot be reached in FINALIZING. */
  lemma HandlerExactly(p: Policy, s: State, pos: Pos, seen: Option<Report>, ans: Answers)
    requires s.active.Some? && pos.Failing?
    ensures var d, a := Decide(p, s, pos, seen, ans), s.active.value;
            var patient := Recovering(s) || (pos.exn.Transport? && a.phase == Finalizing);
            && (d.Stop? <==> patient && ans.now < a.deadline)
            && (d == Write(Block) <==> Recovering(s) && ans.now >= a.deadline)
            && (RollsBackNow(p, d, ans) <==> !Recovering(s) && (patient ==> ans.now >= a.deadline))
            && (RollsBackFor(p, d, ans, "stable_backend_unavailable") <==>
                  !Recovering(s) && patient && ans.now >= a.deadline)
            && (RollsBackFor(p, d, ans, "backend_unavailable") <==>
                  !Recovering(s) && !patient && (pos.exn.Transport? || pos.exn.Http?))
            && (RollsBackFor(p, d, ans, "invalid_backend_contract") <==> !Recovering(s) && pos.exn.Invalid?)
            && (RollsBackFor(p, d, ans, "effect_failure") <==> !Recovering(s) && pos.exn.Unexpected?)
  {
    hide ValidAuth;
  }

  /** An unready lane, or a broken limit with enough traffic, is never waited out. */
  lemma UnhealthyRollsBack(p: Policy, s: State, pos: Pos, seen: Option<Report>, ans: Answers)
    requires Normal(s, Ramp, pos) && UnhealthyRamp(p, s, seen, ans)
    ensures RollsBackNow(p, Decide(p, s, pos, seen, ans), ans)
  {
    RampExactly(p, s, pos, seen, ans);
    hide Decide;
    hide ValidAuth;
  }

  predicate UnhealthyRamp(p: Policy, s: State, seen: Option<Report>, ans: Answers) {
    || !ans.canaryReady || !ans.stableReady
    || (s.active.Some? && s.active.value.stageSince.Some? && Acknowledges(seen, s.route)
        && (!Sampled(ans.metrics)
            || (ans.metrics.traffic.v >= p.minimum && !InLimits(ans.metrics, p.errorLimit, p.p95Limit))))
  }
}
