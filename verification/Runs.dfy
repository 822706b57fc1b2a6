/**
 * The main results, about every run: any interleaving of any number of
 * controllers, writers and router reads, with arbitrary clocks and with every
 * fate of every write.
 */
module Runs {
  import opened Bounded
  import opened ReleaseState
  import opened Authorization
  import opened Mutators
  import opened Lifecycle
  import opened Machine
  import opened Conservation
  import AuthorizationChain
  import opened Decisions
  import opened Cluster
  import Observers
  import Outcomes

  ghost predicate IsRun(p: Policy, stable: Option<Serving>, ys: seq<Sys>, ls: seq<Label>) {
    && |ys| == |ls| + 1
    && ys[0] == InitialSys(stable)
    && forall i :: 0 <= i < |ls| ==> Can(p, ys[i], ls[i]) && ys[i + 1] == Do(p, ys[i], ls[i])
  }

  ghost predicate Always(y: Sys) {
    SysInv(y) && AuthorizationChain.ChainOk(y.w) && Observers.LogOk(y.w) && Outcomes.OutcomesOk(y.w)
  }

  lemma InitialAlways(stable: Option<Serving>)
    ensures Always(InitialSys(stable))
  {
    InitialSysInv(stable);
  }

  lemma StepKeepsAlways(p: Policy, y: Sys, l: Label)
    requires Always(y) && Can(p, y, l)
    ensures Always(Do(p, y, l))
  {
    RefinesMachine(p, y, l);
    DoKeepsSysInv(p, y, l);
    var z := Do(p, y, l);
    hide Do;
    hide SysInv;
    if z.w != y.w {
      var op :| Fits(y.w.s, op) && z.w == Step(y.w, op);
      WorldKeepsAlways(y, op);
    }
    hide AuthorizationChain.ChainOk;
    hide Observers.LogOk;
    hide Outcomes.OutcomesOk;
  }

  lemma WorldKeepsAlways(y: Sys, op: Op)
    requires Always(y) && Fits(y.w.s, op)
    ensures AuthorizationChain.ChainOk(Step(y.w, op))
    ensures Observers.LogOk(Step(y.w, op)) && Outcomes.OutcomesOk(Step(y.w, op))
  {
    assert Inv(y.w);
    hide AuthorizationChain.ChainOk;
    hide Observers.LogOk;
    hide Outcomes.OutcomesOk;
    hide Fenced;
    hide WorkersOk;
    hide AcksOk;
    hide RecordInv;
    hide ReleasesOk;
    hide Step;
    AuthorizationChain.StepKeepsChain(y.w, op);
    Observers.StepKeepsLog(y.w, op);
    Outcomes.StepKeepsOutcomes(y.w, op);
  }

  lemma {:induction false} RunKeepsAlways(p: Policy, stable: Option<Serving>, ys: seq<Sys>, ls: seq<Label>, i: nat)
    requires IsRun(p, stable, ys, ls) && i <= |ls|
    ensures Always(ys[i])
  {
    if i == 0 {
      InitialAlways(stable);
    } else {
      RunKeepsAlways(p, stable, ys, ls, i - 1);
      StepKeepsAlways(p, ys[i - 1], ls[i - 1]);
    }
  }

  // ----- fencing -------------------------------------------------------------------------

  /** At every guarded write of every run, the values captured from the snapshot are current. */
  lemma EveryCommitIsFresh(p: Policy, stable: Option<Serving>, ys: seq<Sys>, ls: seq<Label>, i: nat)
    requires IsRun(p, stable, ys, ls) && i < |ls| && ls[i].Store?
    ensures var y, c := ys[i], CtlOf(ys[i], ls[i].o);
            && ViewOf(y.w.s) == c.view
            && (!c.pos.Failing? ==> ViewOf(y.w.s) == ViewOf(c.snap))
            && Fits(y.w.s, DecisionOf(p, c, ls[i].ans).op)
            && (DecisionOf(p, c, ls[i].ans).op.Claim? ==> y.w.s.active.None?)
  {
    RunKeepsAlways(p, stable, ys, ls, i);
    hide SysInv;
    CommitsAreNeverStale(p, ys[i], ls[i].o, ls[i].ans, ls[i].now, ls[i].fate);
  }

  // ----- phases ----------------------------------------------------------------------------

  /** Weight, phase and stable lane agree in every state, and structural validation never rejects one. */
  lemma EveryStateIsSound(p: Policy, stable: Option<Serving>, ys: seq<Sys>, ls: seq<Label>, i: nat)
    requires IsRun(p, stable, ys, ls) && i <= |ls|
    ensures var s := ys[i].w.s;
            && PhaseOk(s) && Validated(s)
            && (s.active.Some? ==> Binding(s.active.value).Some?)
  {
    RunKeepsAlways(p, stable, ys, ls, i);
    assert Inv(ys[i].w);
    RecordInvValidates(ys[i].w.s);
  }

  // ----- routes -------------------------------------------------------------------------------

  lemma RunKeepsSysInv(p: Policy, stable: Option<Serving>, ys: seq<Sys>, ls: seq<Label>, i: nat)
    requires IsRun(p, stable, ys, ls) && i <= |ls|
    ensures SysInv(ys[i])
  {
    RunKeepsAlways(p, stable, ys, ls, i);
    hide SysInv;
  }

  lemma {:induction false} RoutesGrow(p: Policy, stable: Option<Serving>, ys: seq<Sys>, ls: seq<Label>, i: nat, j: nat)
    requires IsRun(p, stable, ys, ls) && i <= j <= |ls|
    ensures ys[i].w.h.routes <= ys[j].w.h.routes && ys[i].acked <= ys[j].acked
    ensures ys[i].w.s.route.revision <= ys[j].w.s.route.revision
    ensures Baseline(ys[i].w.s) <= Baseline(ys[j].w.s) && ys[i].w.s.highest <= ys[j].w.s.highest
  {
    hide Do;
    hide Always;
    hide Baseline;
    if i < j {
      RoutesGrow(p, stable, ys, ls, i, j - 1);
      RunKeepsSysInv(p, stable, ys, ls, j - 1);
      StepMonotone(p, ys[j - 1], ls[j - 1]);
    }
  }

  lemma StepMonotone(p: Policy, y: Sys, l: Label)
    requires SysInv(y) && Can(p, y, l)
    ensures var z := Do(p, y, l);
            && y.w.h.routes <= z.w.h.routes && y.acked <= z.acked
            && y.w.s.route.revision <= z.w.s.route.revision
            && Baseline(y.w.s) <= Baseline(z.w.s) && y.w.s.highest <= z.w.s.highest
  {
    RefinesMachine(p, y, l);
    AckedGrows(p, y, l);
    assert Inv(y.w);
    hide Fenced;
    hide WorkersOk;
    hide AcksOk;
    hide ReleasesOk;
    hide WindowsOk;
    hide AcceptedOk;
    var z := Do(p, y, l);
    hide Do;
    if z.w != y.w {
      var op :| Fits(y.w.s, op) && z.w == Step(y.w, op);
      StepKeepsRoutes(y.w, op);
      if Mutate(y.w.s, op).Commit? {
        BaselineNeverDecreases(y.w.s, op);
        HighestNeverDecreases(y.w.s, op);
      }
      hide Mutate;
      hide Remember;
      hide RecordInv;
    }
  }

  lemma AckedGrows(p: Policy, y: Sys, l: Label)
    requires Can(p, y, l)
    ensures y.acked <= Do(p, y, l).acked
  {
    hide Decide;
    hide Step;
    hide Mutate;
  }

  /** Over a run the revision never decreases, and equal revisions carry the same weight. */
  lemma RevisionIdentifiesWeight(p: Policy, stable: Option<Serving>, ys: seq<Sys>, ls: seq<Label>, i: nat, j: nat)
    requires IsRun(p, stable, ys, ls) && i <= j <= |ls|
    ensures ys[i].w.s.route.revision <= ys[j].w.s.route.revision
    ensures ys[i].w.s.route.revision == ys[j].w.s.route.revision ==> ys[i].w.s.route == ys[j].w.s.route
  {
    RoutesGrow(p, stable, ys, ls, i, j);
    RunKeepsAlways(p, stable, ys, ls, i);
    RunKeepsAlways(p, stable, ys, ls, j);
    assert RoutesOk(ys[i].w) && RoutesOk(ys[j].w);
    hide IsRun;
    hide Always;
  }

  /** Whatever the router holds, a matching revision means it holds the durable decision itself. */
  lemma AckMeansTheDecision(y: Sys)
    requires Always(y) && y.cache.Some? && y.cache.value.revision == y.w.s.route.revision
    ensures y.cache.value == y.w.s.route
  {
    assert RoutesOk(y.w);
    hide Inv;
  }

  // ----- the stable lane ------------------------------------------------------------------------

  /**
   * The stable lane is rewritten to the candidate only while the durable
   * weight is 100 and a ready router has reported exactly that route; in a
   * recovery it is rewritten to the previous serving at weight 0. The canary
   * lane is rewritten only before it gets traffic.
   */
  lemma LaneRewritesAreSafe(p: Policy, stable: Option<Serving>, ys: seq<Sys>, ls: seq<Label>, i: nat)
    requires IsRun(p, stable, ys, ls) && i < |ls| && ls[i].Ensure?
    ensures var s := ys[i].w.s;
            var d := DecisionOf(p, CtlOf(ys[i], ls[i].o), ls[i].ans);
            && s.active.Some?
            && (d.lane.Canary? ==> InPhase(s, Preparing) && d.target == s.active.value.target && s.route.weight == 0)
            && (d.lane.Stable? ==>
                  (InPhase(s, Finalizing) && d.target == s.active.value.target
                   && s.route.weight == 100 && s.route in ys[i].acked)
                  || (Recovering(s) && d.target == s.active.value.previous && s.route.weight == 0))
  {
    RunKeepsAlways(p, stable, ys, ls, i);
    RewriteIsCurrent(p, ys[i], ls[i].o, ls[i].ans, ls[i].now);
  }

  lemma RewriteIsCurrent(p: Policy, y: Sys, o: Owner, ans: Answers, now: Time)
    requires SysInv(y) && Can(p, y, Ensure(o, ans, now))
    ensures var s := y.w.s;
            var d := DecisionOf(p, CtlOf(y, o), ans);
            && s.active.Some?
            && (d.lane.Canary? ==> InPhase(s, Preparing) && d.target == s.active.value.target && s.route.weight == 0)
            && (d.lane.Stable? ==>
                  (InPhase(s, Finalizing) && d.target == s.active.value.target
                   && s.route.weight == 100 && s.route in y.acked)
                  || (Recovering(s) && d.target == s.active.value.previous && s.route.weight == 0))
  {
    hide ValidAuth;
    SysInvParts(y);
    hide Inv;
    hide RecordInv;
    hide ReleaseOk;
    assert WorkOk(CtlOf(y, o));
    assert Holds(y.w.s, o);
    hide DecidePreparing;
    hide DecideRamp;
    hide DecideFinalizing;
    hide DecideDraining;
    hide DecideRecovery;
    hide DecideHandler;
  }

  // ----- stable versions ------------------------------------------------------------------------

  /** From idle to idle the stable version never decreases. */
  lemma StableNeverRegresses(p: Policy, stable: Option<Serving>, ys: seq<Sys>, ls: seq<Label>, i: nat, j: nat)
    requires IsRun(p, stable, ys, ls) && i <= j <= |ls|
    requires ys[i].w.s.active.None? && ys[j].w.s.active.None? && ys[i].w.s.stable.Some? && ys[j].w.s.stable.Some?
    ensures ys[i].w.s.stable.value.pair.version <= ys[j].w.s.stable.value.pair.version
  {
    RoutesGrow(p, stable, ys, ls, i, j);
  }

  // ----- histories --------------------------------------------------------------------------------

  /** Every accepted version has exactly one fate, in every state of every run; nothing happens twice. */
  lemma EveryVersionHasOneFate(p: Policy, stable: Option<Serving>, ys: seq<Sys>, ls: seq<Label>, i: nat, v: nat)
    requires IsRun(p, stable, ys, ls) && i <= |ls|
    ensures var w := ys[i].w;
            && Count(InPending(w.s, v)) + Count(IsActive(w.s, v)) + Count(WasPromoted(w.h, v))
               + Count(WasRolledBack(w.h, v)) + Count(WasSuperseded(w.h, v)) == Count(WasAccepted(w.h, v))
            && (forall a, b :: 0 <= a < b < |w.h.accepted| ==> w.h.accepted[a].version != w.h.accepted[b].version)
            && (forall a, b :: 0 <= a < b < |w.h.claims| ==>
                  w.h.claims[a].target.pair.version != w.h.claims[b].target.pair.version
                  && w.h.claims[a].auth.hash != w.h.claims[b].auth.hash)
  {
    RunKeepsAlways(p, stable, ys, ls, i);
    ExactlyOneFate(ys[i].w, v);
    AtMostOnce(ys[i].w);
    hide Always;
  }

  /**
   * The bounded lists are the last 100 entries of the full histories; promoted
   * and failed releases are exactly the claims that ended so; and each release
   * started from the serving that the one before it left behind, so that a
   * rollback goes back to exactly the previous pair and fingerprint.
   */
  lemma HistoriesAreConsistent(p: Policy, stable: Option<Serving>, ys: seq<Sys>, ls: seq<Label>, i: nat)
    requires IsRun(p, stable, ys, ls) && i <= |ls|
    ensures var s, h := ys[i].w.s, ys[i].w.h;
            && s.audit == Last(h.audit, HISTORY) && s.identities == Last(h.accepted, HISTORY)
            && s.processed == Last(h.processed, HISTORY) && s.failed == Last(h.failed, HISTORY)
            && |h.claims| == |h.ends| + (if s.active.Some? then 1 else 0)
            && h.processed == WonPairs(h.claims, h.ends) && h.failed == LostReleases(h.claims, h.ends)
            && (forall k :: 0 < k < |h.claims| ==>
                  h.claims[k].previous
                  == if h.ends[k - 1].Won? then h.claims[k - 1].target else h.claims[k - 1].previous)
            && (s.active.None? && h.claims != [] ==>
                  var k := |h.claims| - 1;
                  s.stable == Some(if h.ends[k].Won? then h.claims[k].target else h.claims[k].previous))
  {
    RunKeepsSysInv(p, stable, ys, ls, i);
    SysInvParts(ys[i]);
    hide SysInv;
    hide Inv;
    hide RecordInv;
    hide AcceptedOk;
    hide Fenced;
    hide WorkersOk;
    hide AcksOk;
    hide WonPairs;
    hide LostReleases;
    hide Sound;
    hide Increasing;
  }

  /** Every release was started by an authorization that was really written, and none is written twice. */
  lemma EveryReleaseWasAuthorized(p: Policy, stable: Option<Serving>, ys: seq<Sys>, ls: seq<Label>, i: nat)
    requires IsRun(p, stable, ys, ls) && i <= |ls|
    ensures var h := ys[i].w.h;
            && (forall a :: 0 <= a < |h.claims| ==> h.claims[a].auth in h.auths)
            && AuthorizationChain.Chained(h.auths)
            && (forall a, b :: 0 <= a < b < |h.auths| ==> h.auths[a].evidence != h.auths[b].evidence)
            && (forall a :: 0 < a < |h.auths|
                            && h.auths[a - 1].evidence.basis.candidate.serving.pair.version
                               == h.auths[a].evidence.basis.candidate.serving.pair.version ==>
                  && h.auths[a].evidence.runId != h.auths[a - 1].evidence.runId
                  && h.auths[a].evidence.basis == h.auths[a - 1].evidence.basis)
  {
    RunKeepsAlways(p, stable, ys, ls, i);
    forall a, b | 0 <= a < b < |ys[i].w.h.auths|
      ensures ys[i].w.h.auths[a].evidence != ys[i].w.h.auths[b].evidence
    {
      AuthorizationChain.NeverAuthorizedTwice(ys[i].w, a, b);
    }
  }

  /** Both audit observers are right about every state of every run. */
  lemma ObserversAreRight(p: Policy, stable: Option<Serving>, ys: seq<Sys>, ls: seq<Label>, i: nat,
                          c: Observers.Config)
    requires IsRun(p, stable, ys, ls) && i <= |ls|
    requires c.policyTest && c.version == c.expected.target.pair.version
    ensures var w := ys[i].w;
            var id := c.expected.authId;
            var v, t := Observers.Observe(c, w.s), Outcomes.Terminal(w.s, id);
            && (v.Pass? ==> t == Outcomes.Promoted && v.seen == [10, 25, 50, 100])
            && (v.Fail? ==> t == Outcomes.RolledBackTo)
            && (v.InProgress? ==> t == Outcomes.RolloutStarted)
  {
    RunKeepsAlways(p, stable, ys, ls, i);
    var w := ys[i].w;
    assert Inv(w);
    ObserversAgree(w, c);
    hide Always;
  }

  lemma ObserversAgree(w: World, c: Observers.Config)
    requires Inv(w) && Observers.LogOk(w) && Outcomes.OutcomesOk(w)
    requires c.policyTest && c.version == c.expected.target.pair.version
    ensures var id := c.expected.authId;
            var v, t := Observers.Observe(c, w.s), Outcomes.Terminal(w.s, id);
            && (v.Pass? ==> t == Outcomes.Promoted && v.seen == [10, 25, 50, 100])
            && (v.Fail? ==> t == Outcomes.RolledBackTo)
            && (v.InProgress? ==> t == Outcomes.RolloutStarted)
  {
    hide Inv;
    hide RecordInv;
    hide WindowsOk;
    hide ReleasesOk;
    hide Observers.LogOk;
    hide Outcomes.OutcomesOk;
    hide Observers.Observe;
    hide Outcomes.Terminal;
    var e := c.expected;
    WorldParts(w);
    Observers.ObserverIsExact(w, c);
    Outcomes.TerminalIsHonest(w, e.authId);
    AtMostOnce(w);
    if w.s.active.None? && Observers.Retained(w) && Observers.IsLatest(w, e) {
      EndIsRetained(w, e);
      var i := Outcomes.FindClaim(w.h.claims, e.authId);
      assert i == Some(|w.h.claims| - 1);
    }
    hide Outcomes.FindClaim;
  }

  lemma WorldParts(w: World)
    requires Inv(w)
    ensures RecordInv(w.s) && WindowsOk(w) && ReleasesOk(w)
    ensures Current(w.s, w.h.claims, w.h.ends)
  {
    hide RecordInv;
    hide WindowsOk;
  }

  /** While the start row of the latest ended release is retained, some row of its outcome is. */
  lemma EndIsRetained(w: World, e: Bound)
    requires WindowsOk(w) && Observers.LogOk(w) && Observers.Retained(w) && Observers.IsLatest(w, e)
    ensures w.s.active.None? ==> Outcomes.Terminal(w.s, e.authId) != Outcomes.AuthorizedOnly
  {
    Observers.WindowShowsRelease(w);
    var i := Observers.LatestStart(w.s.audit).value;
    var j := Observers.LatestStart(w.h.audit).value;
    assert w.s.audit[i..][0] == w.h.audit[j..][0];
    hide Observers.TailOk;
    MemberDecides(w.s.audit, i, e.authId);
  }

  lemma {:induction false} MemberDecides(rows: seq<Row>, k: nat, id: Hash)
    requires k < |rows| && Outcomes.OutcomeId(rows[k]) == Some(id)
    ensures Outcomes.LastOutcome(rows, id).Some?
  {
    if k < |rows| - 1 {
      MemberDecides(rows[..|rows| - 1], k, id);
    }
  }
}
