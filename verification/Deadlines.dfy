/**
 * Time bounds of a release, for runs whose actors share one monotone clock.
 * Restarts, takeovers, lost and unseen writes are all still allowed.
 */
module Deadlines {
  import opened Bounded
  import opened ReleaseState
  import opened Authorization
  import opened Mutators
  import opened Lifecycle
  import opened Machine
  import opened Conservation
  import opened Decisions
  import opened Cluster

  /**
   * now: the latest reading made by a store update. lastTick: the latest lease
   * acquisition of a tick that ran to its end. claimedAt, rampAt: when the
   * release was claimed, and when it was first given traffic.
   */
  datatype Timed = Timed(y: Sys, now: Time, lastTick: Time, claimedAt: Time, rampAt: Time)

  predicate Completes(p: Policy, y: Sys, l: Label)
    requires Can(p, y, l)
  {
    match l
    case Finish(_, _) => true
    case Store(o, ans, _, fate) =>
      var op := DecisionOf(p, CtlOf(y, o), ans).op;
      fate.Acknowledged? && Mutate(y.w.s, op).Commit? && !op.ForceZero?
    case _ => false
  }

  predicate Commits(p: Policy, y: Sys, l: Label)
    requires Can(p, y, l)
  {
    l.Store? && (l.fate.Acknowledged? || l.fate.Unseen?)
    && Mutate(y.w.s, DecisionOf(p, CtlOf(y, l.o), l.ans).op).Commit?
  }

  function Max(a: Time, b: Time): Time {
    if a >= b then a else b
  }

  function After(p: Policy, t: Timed, l: Label): Timed
    requires Can(p, t.y, l)
  {
    var commits := Commits(p, t.y, l);
    Timed(Do(p, t.y, l),
          match l
          case Take(_, check, _, _) => Max(t.now, check)
          case Store(_, ans, _, _) => Max(t.now, ans.closureNow)
          case _ => t.now,
          if Completes(p, t.y, l) then Max(t.lastTick, CtlOf(t.y, l.o).at) else t.lastTick,
          if commits && DecisionOf(p, CtlOf(t.y, l.o), l.ans).op.Claim? then l.ans.closureNow else t.claimedAt,
          if commits && DecisionOf(p, CtlOf(t.y, l.o), l.ans).op.Arm? then l.ans.closureNow else t.rampAt)
  }

  /** Clock readings never go back: within a tick, nor from one store update to the next. */
  predicate Timely(p: Policy, t: Timed, l: Label) {
    && Can(p, t.y, l)
    && match l
       case Take(_, check, _, _) => t.now <= check
       case Store(o, ans, _, _) =>
         CtlOf(t.y, o).at <= ans.now <= ans.dwellNow <= ans.closureNow && t.now <= ans.closureNow
       case Finish(o, ans) => CtlOf(t.y, o).at <= ans.now
       case _ => true
  }

  /** While a release is running, some tick that started at most `gap` ago has completed. */
  predicate Ticking(t: Timed, gap: Time, at: Time) {
    t.y.w.s.active.Some? ==> at - t.lastTick <= gap
  }

  ghost predicate IsTimedRun(p: Policy, stable: Option<Serving>, gap: Time, ts: seq<Timed>, ls: seq<Label>) {
    && ValidPolicy(p) && gap >= 0.0
    && |ts| == |ls| + 1
    && ts[0].y == InitialSys(stable) && ts[0].lastTick <= ts[0].now
    && forall i :: 0 <= i < |ls| ==>
         && Timely(p, ts[i], ls[i]) && ts[i + 1] == After(p, ts[i], ls[i])
         && (ls[i].Store? ==> Ticking(ts[i], gap, ls[i].ans.closureNow))
  }

  // ----- invariants ---------------------------------------------------------------------

  /** How many deadlines the release has been given before the current one. */
  function Rank(phase: Phase, weight: nat): nat {
    match phase
    case Preparing => 0
    case Ramp => if weight <= 10 then 1 else if weight <= 25 then 2 else if weight <= 50 then 3 else 4
    case Finalizing => 5
    case Draining => 6
    case _ => 7
  }

  function Times(n: nat, d: real): real {
    if n == 0 then 0.0 else Times(n - 1, d) + d
  }

  lemma {:induction false} TimesIsProduct(n: nat, d: real)
    ensures Times(n, d) == n as real * d
  {
    if n > 0 {
      TimesIsProduct(n - 1, d);
    }
  }

  lemma {:induction false} TimesMonotone(m: nat, n: nat, d: real)
    requires m <= n && d >= 0.0
    ensures Times(m, d) <= Times(n, d)
  {
    if m < n {
      TimesMonotone(m, n - 1, d);
    }
  }

  predicate Open(s: State) {
    s.active.Some? && s.active.value.phase != Blocked
  }

  ghost predicate WorkersStarted(t: Timed) {
    forall o :: !CtlOf(t.y, o).Idle? ==> CtlOf(t.y, o).at <= t.now
  }

  /** A stage that was already overdue when a tick began is the stage of that tick's snapshot. */
  ghost predicate SnapshotsCurrent(t: Timed) {
    forall o :: CtlOf(t.y, o).Working? && Open(t.y.w.s) && t.y.w.s.active.value.deadline <= CtlOf(t.y, o).at ==>
      var snap := CtlOf(t.y, o).snap;
      && snap.active.Some?
      && snap.active.value.phase == t.y.w.s.active.value.phase
      && snap.active.value.deadline == t.y.w.s.active.value.deadline
  }

  ghost predicate InTime(p: Policy, gap: Time, t: Timed) {
    Open(t.y.w.s) ==>
      var a := t.y.w.s.active.value;
      && a.deadline > t.lastTick
      && a.deadline <= t.claimedAt + Times(Rank(a.phase, t.y.w.s.route.weight), p.timeout + gap) + p.timeout
  }

  ghost predicate Dwelt(p: Policy, t: Timed) {
    InPhase(t.y.w.s, Ramp) ==>
      var a := t.y.w.s.active.value;
      var since := t.rampAt + Times(Rank(Ramp, t.y.w.s.route.weight) - 1, p.dwell);
      && since <= t.now
      && (a.stageSince.Some? ==> since <= a.stageSince.value <= t.now)
  }

  ghost predicate TimedInv(p: Policy, gap: Time, t: Timed) {
    && SysInv(t.y) && t.lastTick <= t.now
    && WorkersStarted(t) && SnapshotsCurrent(t) && InTime(p, gap, t) && Dwelt(p, t)
  }

  // ----- what a commit does to the stage ---------------------------------------------------

  /** The record before and after one step, as far as stages and deadlines go. */
  datatype Move = Same | Ended | Entered(deadline: Time) | Marked(since: Time) | GaveUp

  ghost predicate Moves(p: Policy, s: State, next: State, m: Move, at: Time) {
    match m
    case Same =>
      && (s.active.None? <==> next.active.None?)
      && (s.active.Some? ==>
            && next.active.value.phase == s.active.value.phase
            && next.active.value.deadline == s.active.value.deadline
            && next.active.value.stageSince == s.active.value.stageSince)
      && next.route == s.route
    case Ended => next.active.None?
    case Entered(deadline) =>
      && next.active.Some? && next.active.value.deadline == deadline == at + p.timeout
      && (s.active.None? ==> next.active.value.phase == Preparing)
      && (s.active.Some? ==>
            Rank(next.active.value.phase, next.route.weight) > Rank(s.active.value.phase, s.route.weight))
      && (InPhase(next, Ramp) ==> next.active.value.stageSince.None?)
    case Marked(since) =>
      && InPhase(s, Ramp) && InPhase(next, Ramp) && next.route == s.route
      && next.active.value.deadline == s.active.value.deadline && next.active.value.stageSince == Some(since)
    case GaveUp => InPhase(next, Blocked)
  }

  function MoveOf(s: State, op: Op, logged: seq<Row>): Move {
    match op
    case Claim(_, d) => if logged == [] then Same else Entered(d)
    case BeginRollback(_, d) => if logged == [] then Same else Entered(d)
    case Arm(d) => Entered(d)
    case Promote(_, d) => Entered(d)
    case CommitStable(_, d) => Entered(d)
    case MarkStage(since) => Marked(since)
    case Complete(_, _) => Ended
    case Restore(_, _, _, _) => Ended
    case Block => GaveUp
    case _ => Same
  }

  lemma OpMoves(p: Policy, s: State, op: Op, at: Time)
    requires PendingOk(s) && PhaseOk(s) && Fits(s, op) && Mutate(s, op).Commit?
    requires op.Claim? || op.BeginRollback? || op.Arm? || op.Promote? || op.CommitStable? ==>
               op.deadline == at + p.timeout
    ensures Moves(p, s, Mutate(s, op).next, MoveOf(s, op, Mutate(s, op).logged), at)
  {
    hide PendingOk;
    if ChangesQueue(op) {
      QueueKeepsView(s, op);
    } else if op.Claim? {
      ClaimMoves(p, s, op.check, op.deadline, at);
      assert Mutate(s, op) == ClaimOp(s, op.check, op.deadline);
      hide ClaimOp;
    } else {
      OtherMoves(p, s, op, at);
    }
    hide Mutate;
    hide PhaseOk;
  }

  lemma ClaimDeadline(s: State, check: Time, deadline: Time)
    requires ClaimOp(s, check, deadline).Commit? && ClaimOp(s, check, deadline).logged != []
    ensures var a := ClaimOp(s, check, deadline).next.active;
            a.Some? && a.value.deadline == deadline && a.value.stageSince.None?
  {
    hide Claimable;
  }

  lemma ClaimMoves(p: Policy, s: State, check: Time, deadline: Time, at: Time)
    requires PendingOk(s) && s.active.None? && deadline == at + p.timeout
    ensures var r := ClaimOp(s, check, deadline);
            r.Commit? && Moves(p, s, r.next, if r.logged == [] then Same else Entered(deadline), at)
  {
    hide Claimable;
    hide ValidAuth;
    hide PendingOk;
    if ClaimOp(s, check, deadline).logged != [] {
      ClaimDeadline(s, check, deadline);
      ClaimCorrect(s, check, deadline);
      hide ClaimOp;
    }
  }

  lemma OtherMoves(p: Policy, s: State, op: Op, at: Time)
    requires PhaseOk(s) && Fits(s, op) && Mutate(s, op).Commit? && !ChangesQueue(op) && !op.Claim?
    requires op.BeginRollback? || op.Arm? || op.Promote? || op.CommitStable? ==> op.deadline == at + p.timeout
    ensures Moves(p, s, Mutate(s, op).next, MoveOf(s, op, Mutate(s, op).logged), at)
  {
  }

  /** The time part of the invariant, which only depends on the record, the workers and the readings. */
  ghost predicate ClockInv(p: Policy, gap: Time, t: Timed) {
    && t.lastTick <= t.now
    && WorkersStarted(t) && SnapshotsCurrent(t) && InTime(p, gap, t) && Dwelt(p, t)
  }

  lemma TakeKeepsClock(p: Policy, gap: Time, t: Timed, l: Label)
    requires l.Take? && Timely(p, t, l) && ClockInv(p, gap, t)
    ensures ClockInv(p, gap, After(p, t, l))
  {
    TakeMeans(t.y.w, l.o, l.check, l.until);
    hide Step;
    var z := Do(p, t.y, l);
    assert forall q :: q != l.o ==> CtlOf(z, q) == CtlOf(t.y, q);
  }

  /** Steps that leave the record alone and finish no tick. */
  lemma QuietKeepsClock(p: Policy, gap: Time, t: Timed, l: Label)
    requires !l.Take? && !l.Store? && !l.Finish? && !l.Outside? && Timely(p, t, l) && ClockInv(p, gap, t)
    ensures ClockInv(p, gap, After(p, t, l))
  {
    hide Decide;
    var z := Do(p, t.y, l);
    if l.Fetch? || l.Install? {
      assert forall q :: CtlOf(z, q) == CtlOf(t.y, q);
    } else {
      assert forall q :: q != l.o ==> CtlOf(z, q) == CtlOf(t.y, q);
    }
  }

  lemma OutsideKeepsClock(p: Policy, gap: Time, t: Timed, op: Op)
    requires Timely(p, t, Outside(op)) && ClockInv(p, gap, t) && Inv(t.y.w)
    ensures ClockInv(p, gap, After(p, t, Outside(op)))
  {
    hide Inv;
    OutsideKeepsStage(p, t.y, op);
    var z := Do(p, t.y, Outside(op));
    assert forall q :: CtlOf(z, q) == CtlOf(t.y, q);
    hide Do;
  }

  lemma OutsideKeepsStage(p: Policy, y: Sys, op: Op)
    requires Can(p, y, Outside(op))
    ensures Do(p, y, Outside(op)).w.s.active == y.w.s.active && Do(p, y, Outside(op)).w.s.route == y.w.s.route
    ensures Do(p, y, Outside(op)).ctl == y.ctl
  {
    if Mutate(y.w.s, op).Commit? {
      OutsidersKeepStage(y.w.s, op);
    }
    hide Mutate;
    hide Remember;
  }

  lemma OutsidersKeepStage(s: State, op: Op)
    requires !ByController(op) && !op.Acquire? && Mutate(s, op).Commit?
    ensures Mutate(s, op).next.active == s.active && Mutate(s, op).next.route == s.route
  {
    if ChangesQueue(op) {
      QueueKeepsView(s, op);
    }
  }

  /** A tick that just stops has seen the current stage in time. */
  lemma FinishKeepsClock(p: Policy, gap: Time, t: Timed, o: Owner, ans: Answers)
    requires Timely(p, t, Finish(o, ans)) && ClockInv(p, gap, t)
    ensures ClockInv(p, gap, After(p, t, Finish(o, ans)))
  {
    var c := CtlOf(t.y, o);
    assert c.at <= t.now;
    assert Open(t.y.w.s) ==> t.y.w.s.active.value.deadline > c.at;
    hide Decide;
    var z := Do(p, t.y, Finish(o, ans));
    assert forall q :: q != o ==> CtlOf(z, q) == CtlOf(t.y, q);
  }

  // ----- store steps ------------------------------------------------------------------

  ghost predicate StageInv(p: Policy, gap: Time, s: State, now: Time, lastTick: Time, claimedAt: Time, rampAt: Time) {
    && (Open(s) ==>
          var a := s.active.value;
          && a.deadline > lastTick
          && a.deadline <= claimedAt + Times(Rank(a.phase, s.route.weight), p.timeout + gap) + p.timeout)
    && (InPhase(s, Ramp) ==>
          var a := s.active.value;
          var since := rampAt + Times(Rank(Ramp, s.route.weight) - 1, p.dwell);
          && since <= now
          && (a.stageSince.Some? ==> since <= a.stageSince.value <= now))
  }

  /** Entering the next stage in time keeps the whole release in time. */
  lemma EnterInTime(p: Policy, gap: Time, s: State, next: State, lastTick: Time, claimedAt: Time, at: Time,
                    deadline: Time)
    requires ValidPolicy(p) && gap >= 0.0 && PhaseOk(s) && PhaseOk(next)
    requires Moves(p, s, next, Entered(deadline), at) && Open(s)
    requires s.active.value.deadline > lastTick && at - lastTick <= gap
    requires s.active.value.deadline
             <= claimedAt + Times(Rank(s.active.value.phase, s.route.weight), p.timeout + gap) + p.timeout
    ensures deadline <= claimedAt + Times(Rank(next.active.value.phase, next.route.weight), p.timeout + gap) + p.timeout
  {
    var r := Rank(s.active.value.phase, s.route.weight);
    var q := Rank(next.active.value.phase, next.route.weight);
    TimesMonotone(r + 1, q, p.timeout + gap);
    assert Times(r + 1, p.timeout + gap) == Times(r, p.timeout + gap) + p.timeout + gap;
    hide PhaseOk;
  }

  /** A promotion has dwelt; arming and promoting are the only ways into a traffic stage. */
  lemma PromotionDwelt(p: Policy, s: State, op: Op, at: Time)
    requires PhaseOk(s) && Fits(s, op) && Mutate(s, op).Commit? && InPhase(Mutate(s, op).next, Ramp)
    ensures op.Arm? ==> Mutate(s, op).next.route.weight == 10 && Mutate(s, op).next.active.value.stageSince.None?
    ensures op.Promote? ==>
              && Rank(Ramp, Mutate(s, op).next.route.weight) == Rank(Ramp, s.route.weight) + 1
              && Mutate(s, op).next.active.value.stageSince.None?
    ensures !op.Arm? && !op.Promote? ==> InPhase(s, Ramp) && Mutate(s, op).next.route == s.route
    ensures !op.Arm? && !op.Promote? && !op.MarkStage? ==>
              Mutate(s, op).next.active.value.stageSince == s.active.value.stageSince
    ensures op.MarkStage? ==> Mutate(s, op).next.active.value.stageSince == Some(op.since)
  {
    if ChangesQueue(op) {
      QueueKeepsView(s, op);
    }
  }

  /** A tick that ends with an acknowledged write leaves no stage that was overdue when it began. */
  lemma CompletionIsFresh(p: Policy, t: Timed, o: Owner, ans: Answers, now: Time)
    requires ValidPolicy(p) && Timely(p, t, Store(o, ans, now, Acknowledged))
    requires WorkersStarted(t) && SnapshotsCurrent(t) && SysInv(t.y)
    requires Completes(p, t.y, Store(o, ans, now, Acknowledged))
    ensures var next := Mutate(t.y.w.s, DecisionOf(p, CtlOf(t.y, o), ans).op).next;
            Open(next) ==> next.active.value.deadline > CtlOf(t.y, o).at
  {
    hide SysInv;
    hide RecordInv;
    hide Decide;
    hide Mutate;
    var c := CtlOf(t.y, o);
    var s := t.y.w.s;
    var op := DecisionOf(p, c, ans).op;
    CommitsAreNeverStale(p, t.y, o, ans, now, Acknowledged);
    SysInvParts(t.y);
    assert c.at <= t.now;
    CommitMoves(p, s, op, ans);
    if Open(s) && s.active.value.deadline <= c.at {
      ExpiredStageIsLeft(p, c.snap, c.pos, c.seen, ans);
    }
  }

  lemma RollbackNeedsRelease(s: State, op: Op)
    requires Mutate(s, op).Commit?
    ensures op.BeginRollback? ==> s.active.Some? && (Mutate(s, op).logged == [] ==> Recovering(s))
  {
  }

  lemma CommitMoves(p: Policy, s: State, op: Op, ans: Answers)
    requires RecordInv(s) && Fits(s, op) && Mutate(s, op).Commit? && StampedBy(op, p, ans)
    ensures Moves(p, s, Mutate(s, op).next, MoveOf(s, op, Mutate(s, op).logged), ans.closureNow)
    ensures RecordInv(Mutate(s, op).next)
    ensures op.BeginRollback? ==> s.active.Some? && (Mutate(s, op).logged == [] ==> Recovering(s))
  {
    FittingKeepsRecordInv(s, op);
    RollbackNeedsRelease(s, op);
    hide ReleaseOk;
    hide Mutate;
    OpMoves(p, s, op, ans.closureNow);
    hide PhaseOk;
    hide PendingOk;
  }

  lemma CommitKeepsStage(p: Policy, gap: Time, t: Timed, o: Owner, ans: Answers, now: Time, fate: Fate)
    requires SysInv(t.y) && t.lastTick <= t.now && InTime(p, gap, t) && Dwelt(p, t)
    requires ValidPolicy(p) && gap >= 0.0
    requires Timely(p, t, Store(o, ans, now, fate)) && Ticking(t, gap, ans.closureNow)
    requires Mutate(t.y.w.s, DecisionOf(p, CtlOf(t.y, o), ans).op).Commit?
    ensures var op := DecisionOf(p, CtlOf(t.y, o), ans).op;
            StageInv(p, gap, Mutate(t.y.w.s, op).next, ans.closureNow, t.lastTick,
                     if op.Claim? then ans.closureNow else t.claimedAt,
                     if op.Arm? then ans.closureNow else t.rampAt)
  {
    hide SysInv;
    hide RecordInv;
    hide InTime;
    hide Dwelt;
    hide Fits;
    hide Mutate;
    hide Decide;
    CommitsAreNeverStale(p, t.y, o, ans, now, fate);
    SysInvParts(t.y);
    CommitKeepsDeadlines(p, gap, t, DecisionOf(p, CtlOf(t.y, o), ans).op, ans);
    CommitKeepsDwell(p, gap, t, CtlOf(t.y, o), ans);
  }

  lemma CommitKeepsDeadlines(p: Policy, gap: Time, t: Timed, op: Op, ans: Answers)
    requires ValidPolicy(p) && gap >= 0.0 && RecordInv(t.y.w.s) && InTime(p, gap, t)
    requires t.lastTick <= t.now <= ans.closureNow && Ticking(t, gap, ans.closureNow)
    requires Fits(t.y.w.s, op) && Mutate(t.y.w.s, op).Commit? && StampedBy(op, p, ans) && ByController(op)
    ensures var next := Mutate(t.y.w.s, op).next;
            Open(next) ==>
              var a := next.active.value;
              && a.deadline > t.lastTick
              && a.deadline <= (if op.Claim? then ans.closureNow else t.claimedAt)
                               + Times(Rank(a.phase, next.route.weight), p.timeout + gap) + p.timeout
  {
    hide Mutate;
    hide PendingOk;
    hide ReleaseOk;
    var s := t.y.w.s;
    var next := Mutate(s, op).next;
    CommitMoves(p, s, op, ans);
    var m := MoveOf(s, op, Mutate(s, op).logged);
    if m.Entered? && s.active.Some? {
      if Open(s) {
        EnterInTime(p, gap, s, next, t.lastTick, t.claimedAt, ans.closureNow, m.deadline);
      }
    }
    hide PhaseOk;
  }

  lemma CommitKeepsDwell(p: Policy, gap: Time, t: Timed, c: Ctl, ans: Answers)
    requires ValidPolicy(p) && RecordInv(t.y.w.s) && Dwelt(p, t)
    requires c.Working? && DecisionOf(p, c, ans).Write? && Fits(t.y.w.s, DecisionOf(p, c, ans).op)
    requires !c.pos.Failing? ==> ViewOf(t.y.w.s) == ViewOf(c.snap)
    requires Mutate(t.y.w.s, DecisionOf(p, c, ans).op).Commit?
    requires t.now <= ans.closureNow && ans.dwellNow <= ans.closureNow
    ensures var op := DecisionOf(p, c, ans).op;
            var next := Mutate(t.y.w.s, op).next;
            InPhase(next, Ramp) ==>
              var since := (if op.Arm? then ans.closureNow else t.rampAt)
                           + Times(Rank(Ramp, next.route.weight) - 1, p.dwell);
              && since <= ans.closureNow
              && (next.active.value.stageSince.Some? ==> since <= next.active.value.stageSince.value <= ans.closureNow)
  {
    hide Decide;
    hide Mutate;
    var s := t.y.w.s;
    var op := DecisionOf(p, c, ans).op;
    if InPhase(Mutate(s, op).next, Ramp) {
      PromotionDwelt(p, s, op, ans.closureNow);
      if op.Promote? {
        PromotionIsEarned(p, c.snap, c.pos, c.seen, ans);
        var k := Rank(Ramp, s.route.weight);
        assert Times(k, p.dwell) == Times(k - 1, p.dwell) + p.dwell;
      }
    }
    hide RecordInv;
    hide Assess;
  }

  lemma StoreKeepsClock(p: Policy, gap: Time, t: Timed, l: Label)
    requires l.Store? && TimedInv(p, gap, t) && ValidPolicy(p) && gap >= 0.0
    requires Timely(p, t, l) && Ticking(t, gap, l.ans.closureNow)
    ensures ClockInv(p, gap, After(p, t, l))
  {
    hide SysInv;
    hide Decide;
    hide Mutate;
    hide AfterStore;
    hide Step;
    if Commits(p, t.y, l) {
      CommitKeepsClock(p, gap, t, l);
    } else {
      NoCommitKeepsRecord(p, t.y, l);
      NoCommitKeepsClock(p, gap, t, l);
    }
    hide ClockInv;
  }

  lemma NoCommitKeepsRecord(p: Policy, y: Sys, l: Label)
    requires l.Store? && Can(p, y, l) && !Commits(p, y, l)
    ensures Do(p, y, l).w == y.w
  {
    hide Decide;
    hide Mutate;
    hide AfterStore;
  }

  lemma CommittedRecord(p: Policy, y: Sys, l: Label)
    requires l.Store? && Can(p, y, l) && Commits(p, y, l)
    ensures Do(p, y, l).w.s == Mutate(y.w.s, DecisionOf(p, CtlOf(y, l.o), l.ans).op).next
  {
    hide Decide;
    hide Mutate;
    hide AfterStore;
    hide Remember;
  }

  lemma CommitKeepsClock(p: Policy, gap: Time, t: Timed, l: Label)
    requires l.Store? && TimedInv(p, gap, t) && ValidPolicy(p) && gap >= 0.0
    requires Timely(p, t, l) && Ticking(t, gap, l.ans.closureNow) && Commits(p, t.y, l)
    ensures ClockInv(p, gap, After(p, t, l))
  {
    hide SysInv;
    hide Decide;
    hide Mutate;
    hide Do;
    CommitKeepsStage(p, gap, t, l.o, l.ans, l.now, l.fate);
    if Completes(p, t.y, l) {
      CompletionIsFresh(p, t, l.o, l.ans, l.now);
    }
    CommitKeepsSnapshots(p, gap, t, l);
    CommittedRecord(p, t.y, l);
    assert CtlOf(t.y, l.o).at <= t.now;
    hide SnapshotsCurrent;
    hide WorkersStarted;
  }

  lemma AfterStoreKeepsSnapshot(p: Policy, y: Sys, l: Label, q: Owner)
    requires l.Store? && Can(p, y, l)
    ensures var d := CtlOf(Do(p, y, l), q);
            && (!d.Idle? ==> !CtlOf(y, q).Idle? && d.at == CtlOf(y, q).at)
            && (d.Working? ==> CtlOf(y, q).Working? && d.snap == CtlOf(y, q).snap)
  {
    hide Decide;
    hide Mutate;
    hide Step;
  }

  lemma CommitKeepsSnapshots(p: Policy, gap: Time, t: Timed, l: Label)
    requires l.Store? && TimedInv(p, gap, t) && ValidPolicy(p) && Timely(p, t, l) && Commits(p, t.y, l)
    ensures SnapshotsCurrent(After(p, t, l)) && WorkersStarted(After(p, t, l))
  {
    hide SysInv;
    hide RecordInv;
    hide Decide;
    hide Mutate;
    hide Do;
    hide InTime;
    hide Dwelt;
    hide Fits;
    hide ViewOf;
    hide RoutesOk;
    hide ReleasesOk;
    hide AcceptedOk;
    hide WindowsOk;
    hide Inv;
    hide Fenced;
    hide WorkersOk;
    hide AcksOk;
    hide Times;
    var op := DecisionOf(p, CtlOf(t.y, l.o), l.ans).op;
    CommitsAreNeverStale(p, t.y, l.o, l.ans, l.now, l.fate);
    SysInvParts(t.y);
    CommitMoves(p, t.y.w.s, op, l.ans);
    CommittedRecord(p, t.y, l);
    var z := Do(p, t.y, l);
    forall q
      ensures !CtlOf(z, q).Idle? ==> CtlOf(z, q).at <= t.now
      ensures CtlOf(z, q).Working? ==>
                CtlOf(t.y, q).Working? && CtlOf(z, q).snap == CtlOf(t.y, q).snap && CtlOf(z, q).at == CtlOf(t.y, q).at
    {
      AfterStoreKeepsSnapshot(p, t.y, l, q);
    }
  }

  lemma NoCommitKeepsClock(p: Policy, gap: Time, t: Timed, l: Label)
    requires l.Store? && ClockInv(p, gap, t) && Timely(p, t, l) && !Commits(p, t.y, l)
    requires Do(p, t.y, l).w == t.y.w
    ensures ClockInv(p, gap, After(p, t, l))
  {
    var z := Do(p, t.y, l);
    forall q
      ensures !CtlOf(z, q).Idle? ==> CtlOf(z, q).at <= t.now
      ensures CtlOf(z, q).Working? ==>
                CtlOf(t.y, q).Working? && CtlOf(z, q).snap == CtlOf(t.y, q).snap && CtlOf(z, q).at == CtlOf(t.y, q).at
    {
      AfterStoreKeepsSnapshot(p, t.y, l, q);
    }
    hide Decide;
    hide Mutate;
    hide Do;
  }

  lemma StepKeepsTimed(p: Policy, gap: Time, t: Timed, l: Label)
    requires TimedInv(p, gap, t) && ValidPolicy(p) && gap >= 0.0 && Timely(p, t, l)
    requires l.Store? ==> Ticking(t, gap, l.ans.closureNow)
    ensures TimedInv(p, gap, After(p, t, l))
  {
    hide Do;
    hide ClockInv;
    hide TimedInv;
    hide SysInv;
    hide Inv;
    ClockFrom(p, gap, t);
    DoKeepsSysInv(p, t.y, l);
    match l {
      case Take(_, _, _, _) => TakeKeepsClock(p, gap, t, l);
      case Store(_, _, _, _) => StoreKeepsClock(p, gap, t, l);
      case Finish(o, ans) => FinishKeepsClock(p, gap, t, o, ans);
      case Outside(op) => OutsideKeepsClock(p, gap, t, op);
      case _ => QuietKeepsClock(p, gap, t, l);
    }
    ClockGives(p, gap, After(p, t, l));
  }

  lemma ClockFrom(p: Policy, gap: Time, t: Timed)
    requires TimedInv(p, gap, t)
    ensures ClockInv(p, gap, t) && SysInv(t.y) && Inv(t.y.w)
  {
  }

  lemma ClockGives(p: Policy, gap: Time, t: Timed)
    requires ClockInv(p, gap, t) && SysInv(t.y)
    ensures TimedInv(p, gap, t)
  {
  }

  // ----- the bounds -----------------------------------------------------------------------

  lemma {:induction false} RunKeepsTimed(p: Policy, stable: Option<Serving>, gap: Time, ts: seq<Timed>, ls: seq<Label>,
                                         i: nat)
    requires IsTimedRun(p, stable, gap, ts, ls) && i <= |ls|
    ensures TimedInv(p, gap, ts[i])
  {
    if i == 0 {
      InitialSysInv(stable);
    } else {
      RunKeepsTimed(p, stable, gap, ts, ls, i - 1);
      StepKeepsTimed(p, gap, ts[i - 1], ls[i - 1]);
    }
  }

  /**
   * If at every moment some tick that began at most `gap` earlier has
   * completed, a release is over or BLOCKED within eight times (timeout + gap)
   * of its claim.
   */
  lemma ReleaseEndsInTime(p: Policy, stable: Option<Serving>, gap: Time, ts: seq<Timed>, ls: seq<Label>, i: nat,
                          at: Time)
    requires IsTimedRun(p, stable, gap, ts, ls) && i <= |ls|
    requires Ticking(ts[i], gap, at)
    ensures ts[i].y.w.s.active.None? || InPhase(ts[i].y.w.s, Blocked)
            || at < ts[i].claimedAt + 8.0 * (p.timeout + gap)
  {
    RunKeepsTimed(p, stable, gap, ts, ls, i);
    hide SysInv;
    hide IsTimedRun;
    assert InTime(p, gap, ts[i]);
    hide TimedInv;
    RunIsOrderly(p, stable, gap, ts, ls);
    if Open(ts[i].y.w.s) {
      EndsInTime(p, gap, ts[i], at);
    }
    hide InTime;
  }

  lemma RunIsOrderly(p: Policy, stable: Option<Serving>, gap: Time, ts: seq<Timed>, ls: seq<Label>)
    requires IsTimedRun(p, stable, gap, ts, ls)
    ensures p.timeout > 0.0 && gap >= 0.0
  {
  }

  lemma EndsInTime(p: Policy, gap: Time, t: Timed, at: Time)
    requires p.timeout > 0.0 && gap >= 0.0 && InTime(p, gap, t) && Ticking(t, gap, at) && Open(t.y.w.s)
    ensures at < t.claimedAt + 8.0 * (p.timeout + gap)
  {
    var s := t.y.w.s;
    var d := p.timeout + gap;
    TimesMonotone(Rank(s.active.value.phase, s.route.weight), 7, d);
    TimesIsProduct(7, d);
    hide Times;
  }

  /** The candidate is only finalized after it had traffic for at least four dwell times. */
  lemma FinalizingTakesFourDwells(p: Policy, stable: Option<Serving>, gap: Time, ts: seq<Timed>, ls: seq<Label>, i: nat)
    requires IsTimedRun(p, stable, gap, ts, ls) && i < |ls| && ls[i].Store?
    requires Commits(p, ts[i].y, ls[i])
    requires InPhase(ts[i + 1].y.w.s, Finalizing) && !InPhase(ts[i].y.w.s, Finalizing)
    ensures ls[i].ans.closureNow >= ts[i].rampAt + 4.0 * p.dwell
    ensures ts[i].y.w.s.route in ts[i].y.acked
    ensures Assess(ls[i].ans.metrics, p.errorLimit, p.p95Limit) == []
  {
    RunKeepsTimed(p, stable, gap, ts, ls, i);
    FinalizedLate(p, gap, ts[i], ls[i]);
  }

  lemma AckedAndDwelt(p: Policy, gap: Time, t: Timed)
    requires TimedInv(p, gap, t)
    ensures SysInv(t.y) && Dwelt(p, t) && (InPhase(t.y.w.s, Ramp) ==> PhaseOk(t.y.w.s))
    ensures forall o :: CtlOf(t.y, o).Working? && CtlOf(t.y, o).seen.Some? && CtlOf(t.y, o).seen.value.ready ==>
              CtlOf(t.y, o).seen.value.route in t.y.acked
  {
    SysInvParts(t.y);
    hide SysInv;
  }

  lemma EarnedAtFull(p: Policy, t: Timed, ans: Answers)
    requires Dwelt(p, t) && InPhase(t.y.w.s, Ramp) && t.y.w.s.route.weight == 100
    requires t.y.w.s.active.value.stageSince.Some? && ans.dwellNow <= ans.closureNow
    requires ans.dwellNow - t.y.w.s.active.value.stageSince.value >= p.dwell
    ensures ans.closureNow >= t.rampAt + 4.0 * p.dwell
  {
    TimesIsProduct(3, p.dwell);
    hide Times;
  }

  lemma FinalizedLate(p: Policy, gap: Time, t: Timed, l: Label)
    requires TimedInv(p, gap, t) && l.Store? && Timely(p, t, l) && Commits(p, t.y, l)
    requires InPhase(Do(p, t.y, l).w.s, Finalizing) && !InPhase(t.y.w.s, Finalizing)
    ensures l.ans.closureNow >= t.rampAt + 4.0 * p.dwell
    ensures t.y.w.s.route in t.y.acked
    ensures Assess(l.ans.metrics, p.errorLimit, p.p95Limit) == []
  {
    var c := CtlOf(t.y, l.o);
    var op := DecisionOf(p, c, l.ans).op;
    hide SysInv;
    hide TimedInv;
    hide Commits;
    hide Decide;
    hide Mutate;
    hide Do;
    AckedAndDwelt(p, gap, t);
    hide Dwelt;
    CommitsAreNeverStale(p, t.y, l.o, l.ans, l.now, l.fate);
    CommittedRecord(p, t.y, l);
    EnteringFinalizing(t.y.w.s, op);
    PromotionIsEarned(p, c.snap, c.pos, c.seen, l.ans);
    EarnedAtFull(p, t, l.ans);
    hide Assess;
  }

  // ----- the margin of the guard ----------------------------------------------------------

  /** A step that first checks the lease, at the reading `now`. */
  predicate ChecksLease(l: Label) {
    l.Read? || l.Ensure? || l.Store?
  }

  /** Between two steps, the owner of the first only takes the lease again later, for a minute. */
  predicate OwnClock(ls: seq<Label>, i: nat, j: nat)
    requires i < j <= |ls| && ChecksLease(ls[i])
  {
    forall k :: i < k < j && ls[k].Take? && ls[k].o == ls[i].o ==>
      ls[i].now <= ls[k].check && ls[k].check + 60.0 <= ls[k].until
  }

  predicate HeldPast(s: State, o: Owner, t: Time) {
    s.lease.Some? && s.lease.value.owner == o && s.lease.value.until > t
  }

  lemma OnlyTakesMoveLease(p: Policy, y: Sys, l: Label)
    requires Can(p, y, l) && !l.Take?
    ensures Do(p, y, l).w.s.lease == y.w.s.lease
  {
    hide Decide;
    hide Mutate;
    hide Remember;
    hide AfterStore;
    if l.Store? {
      var op := DecisionOf(p, CtlOf(y, l.o), l.ans).op;
      if Mutate(y.w.s, op).Commit? {
        OnlyAcquireMovesLease(y.w.s, op);
      }
    } else if l.Outside? && Mutate(y.w.s, l.op).Commit? {
      OnlyAcquireMovesLease(y.w.s, l.op);
    }
  }

  /** A lease that lasts past a reading is not taken by others whose reading is not later than that. */
  lemma TakeRespectsLease(p: Policy, y: Sys, l: Label, o: Owner, t: Time)
    requires Can(p, y, l) && l.Take? && HeldPast(y.w.s, o, t)
    requires l.o == o ==> l.until > t
    requires l.o != o ==> l.check <= t
    ensures HeldPast(Do(p, y, l).w.s, o, t) && (l.o != o ==> Do(p, y, l).w.s.lease == y.w.s.lease)
  {
    TakeMeans(y.w, l.o, l.check, l.until);
    hide Step;
  }

  lemma {:induction false} ReadingsGrow(p: Policy, stable: Option<Serving>, gap: Time, ts: seq<Timed>, ls: seq<Label>,
                                        i: nat, j: nat)
    requires IsTimedRun(p, stable, gap, ts, ls) && i <= j <= |ls|
    ensures ts[i].now <= ts[j].now
    decreases j - i
  {
    if i < j {
      ReadingsGrow(p, stable, gap, ts, ls, i, j - 1);
      assert Timely(p, ts[j - 1], ls[j - 1]) && ts[j] == After(p, ts[j - 1], ls[j - 1]);
      hide Timely;
      hide Commits;
      hide Completes;
      hide Do;
    }
  }

  lemma RunStep(p: Policy, stable: Option<Serving>, gap: Time, ts: seq<Timed>, ls: seq<Label>, k: nat)
    requires IsTimedRun(p, stable, gap, ts, ls) && k < |ls|
    ensures |ts| == |ls| + 1 && Can(p, ts[k].y, ls[k]) && ts[k + 1].y == Do(p, ts[k].y, ls[k])
    ensures ls[k].Take? ==> ts[k].now <= ls[k].check <= ts[k + 1].now
  {
    assert Timely(p, ts[k], ls[k]) && ts[k + 1] == After(p, ts[k], ls[k]);
    hide Commits;
    hide Completes;
    hide Do;
    hide Can;
  }

  /** What a checked step has found. */
  lemma CheckMeans(p: Policy, y: Sys, l: Label)
    requires Can(p, y, l) && ChecksLease(l)
    ensures HeldPast(y.w.s, l.o, l.now + 10.0)
  {
    hide Decide;
  }

  lemma {:induction false} LeaseOutlastsCheck(p: Policy, stable: Option<Serving>, gap: Time, ts: seq<Timed>,
                                              ls: seq<Label>, i: nat, k: nat, j: nat)
    requires IsTimedRun(p, stable, gap, ts, ls) && i < k <= j < |ls| && ChecksLease(ls[i]) && OwnClock(ls, i, j)
    requires ls[j].Take? && ls[j].o != ls[i].o && ls[j].check <= ls[i].now + 10.0
    ensures HeldPast(ts[k].y.w.s, ls[i].o, ls[i].now + 10.0)
    decreases k
  {
    hide IsTimedRun;
    hide Do;
    var o, t, l := ls[i].o, ls[i].now + 10.0, ls[k - 1];
    RunStep(p, stable, gap, ts, ls, k - 1);
    if k == i + 1 {
      OnlyTakesMoveLease(p, ts[i].y, ls[i]);
      CheckMeans(p, ts[i].y, ls[i]);
      hide Can;
    } else {
      hide Can;
      LeaseOutlastsCheck(p, stable, gap, ts, ls, i, k - 1, j);
      if l.Take? {
        ReadingsGrow(p, stable, gap, ts, ls, k, j);
        RunStep(p, stable, gap, ts, ls, j);
        TakeRespectsLease(p, ts[k - 1].y, l, o, t);
      } else {
        OnlyTakesMoveLease(p, ts[k - 1].y, l);
      }
    }
  }

  /**
   * The ten-second margin, with one clock: after a controller's read of the
   * record, lane rewrite or write that checked the lease at some reading, no
   * other owner gets the lease at a reading within the next ten seconds. So an
   * outside call that ends by then ends under this controller's lease.
   */
  lemma LeaseIsKeptForTenSeconds(p: Policy, stable: Option<Serving>, gap: Time, ts: seq<Timed>, ls: seq<Label>,
                                 i: nat, j: nat)
    requires IsTimedRun(p, stable, gap, ts, ls) && i < j < |ls| && ChecksLease(ls[i]) && OwnClock(ls, i, j)
    requires ls[j].Take? && ls[j].o != ls[i].o && ls[j].check <= ls[i].now + 10.0
    ensures ts[j + 1].y.w.s.lease == ts[j].y.w.s.lease
    ensures ts[j].y.w.s.lease.Some? && ts[j].y.w.s.lease.value.owner == ls[i].o
  {
    LeaseOutlastsCheck(p, stable, gap, ts, ls, i, j, j);
    RunStep(p, stable, gap, ts, ls, j);
    hide Do;
    hide Can;
    hide IsTimedRun;
    TakeRespectsLease(p, ts[j].y, ls[j], ls[i].o, ls[i].now + 10.0);
  }
}
