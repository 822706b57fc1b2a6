/**
 * Any number of controllers, the other writers and the router, interleaved.
 * A controller tick is a program counter and the snapshot it took; each store
 * call is one atomic step (module Store shows why that is sound), and a write
 * may commit, conflict, commit without the caller learning of it, or be lost.
 * Clock readings are arbitrary.
 */
module Cluster {
  import opened Bounded
  import opened ReleaseState
  import opened Authorization
  import opened Mutators
  import opened Lifecycle
  import opened Machine
  import opened Conservation
  import opened Decisions

  /**
   * Held: the lease was acquired at `at`. Working: the snapshot was taken too;
   * `view` is what the leased part of the record must look like now if nobody
   * else wrote it: the snapshot, plus this tick's own writes.
   */
  datatype Ctl =
    | Idle
    | Held(at: Time)
    | Working(at: Time, snap: State, view: View, pos: Pos, seen: Option<Report>)

  datatype Sys = Sys(w: World, ctl: map<Owner, Ctl>, fetched: Option<Route>, cache: Option<Route>, acked: set<Route>)

  datatype Fate = Acknowledged | Unseen(exn: Exn) | Lost(exn: Exn) | Conflicted

  datatype Label =
    | Take(o: Owner, check: Time, until: Time, fate: Fate)
    | Read(o: Owner, now: Time)
    | Ensure(o: Owner, ans: Answers, now: Time)
    | Reread(o: Owner, ans: Answers)
    | Ask(o: Owner, ans: Answers, ready: bool)
    | Store(o: Owner, ans: Answers, now: Time, fate: Fate)
    | Finish(o: Owner, ans: Answers)
    | Throw(o: Owner, exn: Exn)
    | Crash(o: Owner)
    | Outside(op: Op)
    | Fetch
    | Install

  function CtlOf(y: Sys, o: Owner): Ctl {
    if o in y.ctl then y.ctl[o] else Idle
  }

  predicate Guard(s: State, o: Owner, now: Time) {
    s.lease.Some? && s.lease.value.owner == o && s.lease.value.until > now + 10.0
  }

  function DecisionOf(p: Policy, c: Ctl, ans: Answers): Decision
    requires c.Working?
  {
    Decide(p, c.snap, c.pos, c.seen, ans)
  }

  predicate Can(p: Policy, y: Sys, l: Label) {
    match l
    case Take(o, _, _, _) => CtlOf(y, o).Idle?
    case Read(o, now) => CtlOf(y, o).Held? && Guard(y.w.s, o, now)
    case Ensure(o, ans, now) =>
      CtlOf(y, o).Working? && DecisionOf(p, CtlOf(y, o), ans).Rewrite? && Guard(y.w.s, o, now)
    case Reread(o, ans) => CtlOf(y, o).Working? && DecisionOf(p, CtlOf(y, o), ans).Look?
    case Ask(o, ans, ready) =>
      CtlOf(y, o).Working? && DecisionOf(p, CtlOf(y, o), ans).AskRouter? && (ready ==> y.cache.Some?)
    case Store(o, ans, now, _) =>
      CtlOf(y, o).Working? && DecisionOf(p, CtlOf(y, o), ans).Write? && Guard(y.w.s, o, now)
    case Finish(o, ans) => CtlOf(y, o).Working? && DecisionOf(p, CtlOf(y, o), ans).Stop?
    case Throw(o, _) => CtlOf(y, o).Working?
    case Crash(_) => true
    case Outside(op) => !ByController(op) && !op.Acquire? && Fits(y.w.s, op)
    case Fetch => true
    case Install => y.fetched.Some?
  }

  function Place(y: Sys, o: Owner, c: Ctl): Sys {
    y.(ctl := y.ctl[o := c])
  }

  /** An exception inside the try block reaches its handler; anywhere else it ends the tick. */
  function Fail(c: Ctl, view: View, exn: Exn): Ctl
    requires c.Working?
  {
    if c.snap.active.None? || c.pos.Failing? || AuthLost(c.snap.active.value) then Idle
    else c.(view := view, pos := Failing(exn))
  }

  function ExnOf(e: Error): Exn {
    if e.ValueError? then Invalid else Unexpected
  }

  function TakeStep(y: Sys, o: Owner, check: Time, until: Time, fate: Fate): Sys {
    if LeaseTaken(y.w.s, o, check) || fate.Lost? || fate.Conflicted? then y
    else
      var z := y.(w := Step(y.w, Acquire(o, check, until)));
      if fate.Acknowledged? then Place(z, o, Held(check)) else z
  }

  /** Where the tick is after its guarded write; Idle when the tick is over. */
  function AfterStore(c: Ctl, op: Op, r: Outcome, fate: Fate): Ctl
    requires c.Working?
  {
    match r
    case Raise(e) => if e.BusyError? then Idle else Fail(c, c.view, ExnOf(e))
    case Commit(next, _) =>
      match fate
      case Acknowledged => if op.ForceZero? then c.(view := ViewOf(next), pos := Zeroed) else Idle
      case Unseen(exn) => Fail(c, ViewOf(next), exn)
      case Lost(exn) => Fail(c, c.view, exn)
      case Conflicted => Idle
  }

  function StoreStep(y: Sys, o: Owner, c: Ctl, op: Op, fate: Fate): Sys
    requires c.Working?
  {
    var z := if fate.Acknowledged? || fate.Unseen? then y.(w := Step(y.w, op)) else y;
    Place(z, o, AfterStore(c, op, Mutate(y.w.s, op), fate))
  }

  function Do(p: Policy, y: Sys, l: Label): Sys
    requires Can(p, y, l)
  {
    match l
    case Take(o, check, until, fate) => TakeStep(y, o, check, until, fate)
    case Read(o, _) => Place(y, o, Working(CtlOf(y, o).at, y.w.s, ViewOf(y.w.s), Start, None))
    case Ensure(o, _, _) =>
      var c := CtlOf(y, o);
      Place(y, o, c.(pos := if c.pos.Zeroed? then Restoring else Ensured))
    case Reread(o, _) => Place(y, o, CtlOf(y, o).(pos := Compared(y.w.s.route)))
    case Ask(o, _, ready) =>
      var report := if ready then Report(true, y.cache.value) else Report(false, Route(0, 0));
      Place(y, o, CtlOf(y, o).(seen := Some(report))).(acked := if ready then y.acked + {y.cache.value} else y.acked)
    case Store(o, ans, _, fate) => StoreStep(y, o, CtlOf(y, o), DecisionOf(p, CtlOf(y, o), ans).op, fate)
    case Finish(o, _) => Place(y, o, Idle)
    case Throw(o, exn) => Place(y, o, Fail(CtlOf(y, o), CtlOf(y, o).view, exn))
    case Crash(o) => Place(y, o, Idle)
    case Outside(op) => y.(w := Step(y.w, op))
    case Fetch => y.(fetched := Some(y.w.s.route))
    case Install => y.(cache := y.fetched)
  }

  // ----- the invariant --------------------------------------------------------------

  predicate Holds(s: State, o: Owner) {
    s.lease.Some? && s.lease.value.owner == o
  }

  /** Whoever holds the lease and is at work finds the record as its own tick left it. */
  ghost predicate Fenced(y: Sys) {
    forall o :: CtlOf(y, o).Working? && Holds(y.w.s, o) ==> ViewOf(y.w.s) == CtlOf(y, o).view
  }

  /** The program counter agrees with the snapshot. */
  ghost predicate WorkOk(c: Ctl) {
    c.Working? ==>
      && PhaseOk(c.snap) && ReleaseOk(c.snap)
      && (!c.pos.Failing? ==> c.view == ViewOf(c.snap))
      && (c.pos.Ensured? ==> InPhase(c.snap, Preparing) || InPhase(c.snap, Finalizing))
      && (c.pos.Zeroed? || c.pos.Restoring? || c.pos.Compared? ==> Recovering(c.snap))
      && (c.pos.Failing? ==>
            c.snap.active.Some?
            && (Recovering(c.snap) && c.view.active.Some? ==> c.view.active.value.phase in {Rollback, Blocked}))
  }

  ghost predicate WorkersOk(y: Sys) {
    forall o :: WorkOk(CtlOf(y, o))
  }

  /** Acknowledged and cached routes were all durable at some time; a finalizing release was acknowledged at 100. */
  ghost predicate AcksOk(y: Sys) {
    && y.acked <= y.w.h.routes
    && (y.fetched.Some? ==> y.fetched.value in y.w.h.routes)
    && (y.cache.Some? ==> y.cache.value in y.w.h.routes)
    && (InPhase(y.w.s, Finalizing) ==> y.w.s.route in y.acked)
    && (forall o :: CtlOf(y, o).Working? && CtlOf(y, o).seen.Some? && CtlOf(y, o).seen.value.ready ==>
                      CtlOf(y, o).seen.value.route in y.acked)
  }

  ghost predicate SysInv(y: Sys) {
    Inv(y.w) && Fenced(y) && WorkersOk(y) && AcksOk(y)
  }

  /** The parts of the invariant, for proofs that need only some of them. */
  lemma SysInvParts(y: Sys)
    requires SysInv(y)
    ensures RecordInv(y.w.s) && WindowsOk(y.w) && RoutesOk(y.w) && ReleasesOk(y.w) && AcceptedOk(y.w)
    ensures Inv(y.w) && Fenced(y) && WorkersOk(y) && AcksOk(y)
  {
    hide RecordInv;
    hide WindowsOk;
    hide RoutesOk;
    hide ReleasesOk;
    hide AcceptedOk;
    hide Fenced;
    hide WorkersOk;
    hide AcksOk;
  }

  function InitialSys(stable: Option<Serving>): Sys {
    Sys(InitialWorld(stable), map[], None, None, {})
  }

  lemma InitialSysInv(stable: Option<Serving>)
    ensures SysInv(InitialSys(stable))
  {
    InitialInv(stable);
  }

  // ----- fencing -----------------------------------------------------------------------

  /**
   * Lease fencing. When a controller's guarded write reaches the record, the
   * leased part of the record is exactly its snapshot plus its own writes, so
   * the captured values are never stale: the closure fits the record. In
   * particular a claim never overwrites a release.
   */
  lemma CommitsAreNeverStale(p: Policy, y: Sys, o: Owner, ans: Answers, now: Time, fate: Fate)
    requires SysInv(y) && Can(p, y, Store(o, ans, now, fate))
    ensures ViewOf(y.w.s) == CtlOf(y, o).view
    ensures !CtlOf(y, o).pos.Failing? ==> ViewOf(y.w.s) == ViewOf(CtlOf(y, o).snap)
    ensures Fits(y.w.s, DecisionOf(p, CtlOf(y, o), ans).op)
    ensures ByController(DecisionOf(p, CtlOf(y, o), ans).op)
  {
    hide Inv;
    hide AcksOk;
    var c := CtlOf(y, o);
    assert WorkOk(c);
    assert Holds(y.w.s, o);
    DecisionFits(p, y.w.s, c, ans);
  }

  lemma DecisionFits(p: Policy, s: State, c: Ctl, ans: Answers)
    requires c.Working? && WorkOk(c) && ViewOf(s) == c.view
    requires DecisionOf(p, c, ans).Write?
    ensures Fits(s, DecisionOf(p, c, ans).op)
  {
    hide DecidePreparing;
    hide DecideRamp;
    hide DecideFinalizing;
    hide DecideDraining;
    hide DecideRecovery;
    hide DecideHandler;
    hide ValidAuth;
    hide ReleaseOk;
  }

  /** The approval of a running release is never lost, so that rollback reason is unreachable. */
  lemma AuthorizationNeverLost(y: Sys, o: Owner)
    requires SysInv(y) && CtlOf(y, o).Working? && CtlOf(y, o).snap.active.Some?
    ensures !AuthLost(CtlOf(y, o).snap.active.value)
    ensures Binding(CtlOf(y, o).snap.active.value).Some?
  {
    hide Inv;
    assert WorkOk(CtlOf(y, o));
  }

  /**
   * A tick that finds an unready lane, or a broken limit with enough traffic,
   * does not end without a write, and its committed write takes all traffic
   * away from the candidate at once, whatever the deadline is.
   */
  lemma UnhealthyRampIsRolledBack(p: Policy, y: Sys, o: Owner, ans: Answers, now: Time, fate: Fate)
    requires SysInv(y) && CtlOf(y, o).Working? && InPhase(CtlOf(y, o).snap, Ramp) && !CtlOf(y, o).pos.Failing?
    requires UnhealthyRamp(p, CtlOf(y, o).snap, CtlOf(y, o).seen, ans)
    ensures !Can(p, y, Finish(o, ans)) && !Can(p, y, Ask(o, ans, true)) && !Can(p, y, Ask(o, ans, false))
    ensures var l := Store(o, ans, now, fate);
            Can(p, y, l) && (fate.Acknowledged? || fate.Unseen?) ==>
              InPhase(Do(p, y, l).w.s, Rollback) && Do(p, y, l).w.s.route.weight == 0
  {
    hide SysInv;
    hide Decide;
    hide UnhealthyRamp;
    hide Fits;
    hide ValidAuth;
    hide Guard;
    var c := CtlOf(y, o);
    AuthorizationNeverLost(y, o);
    UnhealthyRollsBack(p, c.snap, c.pos, c.seen, ans);
    if Can(p, y, Store(o, ans, now, fate)) {
      CommitsAreNeverStale(p, y, o, ans, now, fate);
    }
    hide AfterStore;
  }

  /**
   * Any exception of a tick whose release is not recovering reaches the
   * handler, which ends the tick unwritten only while a stable lane that cannot
   * be reached in FINALIZING is still in time; otherwise its committed write
   * takes all traffic away from the candidate.
   */
  lemma ErrorsAreRolledBack(p: Policy, y: Sys, o: Owner, exn: Exn, ans: Answers, now: Time, fate: Fate)
    requires SysInv(y) && CtlOf(y, o).Working? && !CtlOf(y, o).pos.Failing?
    requires CtlOf(y, o).snap.active.Some? && !Recovering(CtlOf(y, o).snap)
    ensures var z, a := Do(p, y, Throw(o, exn)), CtlOf(y, o).snap.active.value;
            && z.w == y.w && CtlOf(z, o) == CtlOf(y, o).(pos := Failing(exn))
            && (Can(p, z, Finish(o, ans)) <==> exn.Transport? && a.phase == Finalizing && ans.now < a.deadline)
            && var l := Store(o, ans, now, fate);
               Can(p, z, l) && (fate.Acknowledged? || fate.Unseen?) ==>
                 InPhase(Do(p, z, l).w.s, Rollback) && Do(p, z, l).w.s.route.weight == 0
  {
    EverythingIsApproved(y, o);
    ErrorsReachHandler(p, y, o, exn);
    DoKeepsSysInv(p, y, Throw(o, exn));
    hide SysInv;
    hide Do;
    HandlerRollsBack(p, Do(p, y, Throw(o, exn)), o, ans, now, fate);
    hide Can;
  }

  /** The lease is taken, or renewed, exactly when nobody else holds it past the reading. */
  lemma TakesExactly(p: Policy, y: Sys, o: Owner, check: Time, until: Time, fate: Fate)
    requires CtlOf(y, o).Idle?
    ensures var z := Do(p, y, Take(o, check, until, fate));
            var s := y.w.s;
            var free := s.lease.None? || s.lease.value.owner == o || s.lease.value.until <= check;
            && z.w.h == y.w.h.(routes := z.w.h.routes)
            && z.w.s == (if free && (fate.Acknowledged? || fate.Unseen?) then s.(lease := Some(Lease(o, until))) else s)
            && CtlOf(z, o) == (if free && fate.Acknowledged? then Held(check) else Idle)
  {
  }

  /** A snapshot whose release, if any, has a valid approval; by AuthorizationNeverLost every snapshot is. */
  predicate HasApproval(c: Ctl) {
    c.Working? && (c.snap.active.Some? ==> !AuthLost(c.snap.active.value))
  }

  /** An exception reaches the handler from everywhere in the tick of a release, except from the handler itself. */
  lemma ErrorsReachHandler(p: Policy, y: Sys, o: Owner, exn: Exn)
    requires HasApproval(CtlOf(y, o))
    ensures var z, c := Do(p, y, Throw(o, exn)), CtlOf(y, o);
            && z.w == y.w
            && CtlOf(z, o) == (if c.snap.active.Some? && !c.pos.Failing? then c.(pos := Failing(exn)) else Idle)
  {
    hide AuthLost;
  }

  /**
   * What a write leaves. Only an acknowledged or unseen one is in the record;
   * an acknowledged one ends the tick, unless it forced weight 0 in a recovery;
   * an unseen or lost one is an exception; after a conflict the tick is over.
   */
  lemma WritesExactly(p: Policy, y: Sys, o: Owner, ans: Answers, now: Time, fate: Fate)
    requires HasApproval(CtlOf(y, o)) && Can(p, y, Store(o, ans, now, fate))
    ensures var c, z := CtlOf(y, o), Do(p, y, Store(o, ans, now, fate));
            var op := DecisionOf(p, c, ans).op;
            var handled := c.snap.active.Some? && !c.pos.Failing?;
            && z.w == (if fate.Acknowledged? || fate.Unseen? then Step(y.w, op) else y.w)
            && (Mutate(y.w.s, op).Commit? ==>
                  CtlOf(z, o) == match fate
                                 case Acknowledged =>
                                   if op.ForceZero? then c.(view := ViewOf(z.w.s), pos := Zeroed) else Idle
                                 case Unseen(exn) =>
                                   if handled then c.(view := ViewOf(z.w.s), pos := Failing(exn)) else Idle
                                 case Lost(exn) => if handled then c.(pos := Failing(exn)) else Idle
                                 case Conflicted => Idle)
  {
    hide Decide;
    hide Mutate;
    hide Remember;
    hide AuthLost;
    hide Guard;
  }

  lemma EverythingIsApproved(y: Sys, o: Owner)
    requires SysInv(y) && CtlOf(y, o).Working?
    ensures HasApproval(CtlOf(y, o))
    ensures !CtlOf(y, o).pos.Failing? ==> CtlOf(y, o).view == ViewOf(CtlOf(y, o).snap)
  {
    if CtlOf(y, o).snap.active.Some? {
      AuthorizationNeverLost(y, o);
    }
    SysInvParts(y);
    hide SysInv;
    assert WorkOk(CtlOf(y, o));
    hide AuthLost;
  }

  lemma HandlerRollsBack(p: Policy, y: Sys, o: Owner, ans: Answers, now: Time, fate: Fate)
    requires SysInv(y) && CtlOf(y, o).Working? && CtlOf(y, o).pos.Failing?
    requires CtlOf(y, o).snap.active.Some? && !Recovering(CtlOf(y, o).snap)
    requires CtlOf(y, o).view == ViewOf(CtlOf(y, o).snap)
    ensures var a := CtlOf(y, o).snap.active.value;
            Can(p, y, Finish(o, ans))
            <==> CtlOf(y, o).pos.exn.Transport? && a.phase == Finalizing && ans.now < a.deadline
    ensures var l := Store(o, ans, now, fate);
            Can(p, y, l) && (fate.Acknowledged? || fate.Unseen?) ==>
              InPhase(Do(p, y, l).w.s, Rollback) && Do(p, y, l).w.s.route.weight == 0
  {
    hide SysInv;
    hide Decide;
    hide Fits;
    hide ValidAuth;
    hide Guard;
    var c := CtlOf(y, o);
    HandlerExactly(p, c.snap, c.pos, c.seen, ans);
    if Can(p, y, Store(o, ans, now, fate)) {
      CommitsAreNeverStale(p, y, o, ans, now, fate);
    }
    hide AfterStore;
  }

  /** Every step of the cluster is a step of the atomic machine, or leaves record and history alone. */
  lemma RefinesMachine(p: Policy, y: Sys, l: Label)
    requires SysInv(y) && Can(p, y, l)
    ensures var z := Do(p, y, l);
            z.w == y.w || exists op :: Fits(y.w.s, op) && z.w == Step(y.w, op)
  {
    hide Inv;
    hide Step;
    match l
    case Take(o, check, until, fate) => assert Fits(y.w.s, Acquire(o, check, until));
    case Store(o, ans, now, fate) => CommitsAreNeverStale(p, y, o, ans, now, fate);
    case _ =>
  }

  // ----- preservation -------------------------------------------------------------------

  lemma OnlyAcquireMovesLease(s: State, op: Op)
    requires !op.Acquire? && Mutate(s, op).Commit?
    ensures Mutate(s, op).next.lease == s.lease
  {
  }

  /** Other writers cannot touch the leased part of the record once a lease exists. */
  lemma OutsidersKeepView(s: State, op: Op)
    requires !ByController(op) && !op.Acquire? && Mutate(s, op).Commit? && s.lease.Some?
    ensures ViewOf(Mutate(s, op).next) == ViewOf(s)
  {
    if ChangesQueue(op) {
      QueueKeepsView(s, op);
    }
  }

  lemma FenceKept(p: Policy, y: Sys, l: Label)
    requires Fenced(y) && Can(p, y, l)
    ensures Fenced(Do(p, y, l))
  {
    hide Mutate;
    hide Remember;
    hide Decide;
    var z := Do(p, y, l);
    match l
    case Store(o, ans, now, fate) =>
      StoreKeepsFence(p, y, o, ans, now, fate);
    case Outside(op) =>
      if Mutate(y.w.s, op).Commit? {
        OnlyAcquireMovesLease(y.w.s, op);
        if y.w.s.lease.Some? {
          OutsidersKeepView(y.w.s, op);
        }
      }
      hide Fits;
      assert forall q :: CtlOf(z, q) == CtlOf(y, q);
    case Take(o, check, until, fate) =>
      TakeMeans(y.w, o, check, until);
      assert forall q :: q != o ==> CtlOf(z, q) == CtlOf(y, q);
    case Fetch => assert forall q :: CtlOf(z, q) == CtlOf(y, q);
    case Install => assert forall q :: CtlOf(z, q) == CtlOf(y, q);
    case _ =>
      assert forall q :: q != l.o ==> CtlOf(z, q) == CtlOf(y, q);
  }

  lemma TakeMeans(w: World, o: Owner, check: Time, until: Time)
    ensures var s := Step(w, Acquire(o, check, until)).s;
            ViewOf(s) == ViewOf(w.s)
            && s == if LeaseTaken(w.s, o, check) then w.s else w.s.(lease := Some(Lease(o, until)))
  {
  }

  lemma StoreKeepsFence(p: Policy, y: Sys, o: Owner, ans: Answers, now: Time, fate: Fate)
    requires Fenced(y) && Can(p, y, Store(o, ans, now, fate))
    requires ByController(DecisionOf(p, CtlOf(y, o), ans).op)
    ensures Fenced(Do(p, y, Store(o, ans, now, fate)))
  {
    var op := DecisionOf(p, CtlOf(y, o), ans).op;
    var z := Do(p, y, Store(o, ans, now, fate));
    if Mutate(y.w.s, op).Commit? {
      OnlyAcquireMovesLease(y.w.s, op);
    }
    hide Mutate;
    hide Remember;
    hide Decide;
    assert forall q :: q != o ==> CtlOf(z, q) == CtlOf(y, q);
  }

  lemma WorkersKept(p: Policy, y: Sys, l: Label)
    requires SysInv(y) && Can(p, y, l)
    ensures WorkersOk(Do(p, y, l))
  {
    hide Inv;
    hide AcksOk;
    hide Fenced;
    hide Step;
    hide ValidAuth;
    hide Decide;
    var z := Do(p, y, l);
    match l
    case Store(o, ans, now, fate) =>
      StoreKeepsWorkers(p, y, o, ans, now, fate);
    case Outside(op) => assert forall q :: CtlOf(z, q) == CtlOf(y, q);
    case Fetch => assert forall q :: CtlOf(z, q) == CtlOf(y, q);
    case Install => assert forall q :: CtlOf(z, q) == CtlOf(y, q);
    case Read(o, _) =>
      ReadsAreSound(y.w);
      hide PhaseOk;
      hide ReleaseOk;
      assert forall q :: q != l.o ==> CtlOf(z, q) == CtlOf(y, q);
    case _ =>
      PlainKeepsWorker(p, y, l);
      hide WorkOk;
      PlainKeepsOthers(p, y, l);
  }

  /** Steps of one controller that write nothing. */
  predicate Plain(l: Label) {
    l.Ensure? || l.Reread? || l.Ask? || l.Finish? || l.Throw? || l.Crash? || l.Take?
  }

  lemma PlainKeepsOthers(p: Policy, y: Sys, l: Label)
    requires Can(p, y, l) && Plain(l)
    ensures forall q :: q != l.o ==> CtlOf(Do(p, y, l), q) == CtlOf(y, q)
  {
    hide Decide;
    hide Step;
  }

  lemma PlainKeepsWorker(p: Policy, y: Sys, l: Label)
    requires Can(p, y, l) && Plain(l) && WorkOk(CtlOf(y, l.o))
    ensures WorkOk(CtlOf(Do(p, y, l), l.o))
  {
    hide Step;
    hide PhaseOk;
    hide ReleaseOk;
    hide ValidAuth;
    hide DecidePreparing;
    hide DecideRamp;
    hide DecideFinalizing;
    hide DecideDraining;
    hide DecideHandler;
  }

  lemma ReadsAreSound(w: World)
    requires Inv(w)
    ensures PhaseOk(w.s) && ReleaseOk(w.s)
  {
  }

  lemma StoreKeepsWorkers(p: Policy, y: Sys, o: Owner, ans: Answers, now: Time, fate: Fate)
    requires SysInv(y) && Can(p, y, Store(o, ans, now, fate))
    ensures WorkersOk(Do(p, y, Store(o, ans, now, fate)))
  {
    hide SysInv;
    hide Inv;
    hide RecordInv;
    hide AcksOk;
    hide Fenced;
    hide Fits;
    hide Decide;
    hide Mutate;
    hide Step;
    CommitsAreNeverStale(p, y, o, ans, now, fate);
    var c := CtlOf(y, o);
    var op := DecisionOf(p, c, ans).op;
    var z := Do(p, y, Store(o, ans, now, fate));
    SysInvParts(y);
    assert WorkOk(c);
    AfterStoreOk(p, c, ans, y.w.s, fate);
    hide WorkOk;
    hide AfterStore;
    assert forall q :: q != o ==> CtlOf(z, q) == CtlOf(y, q);
  }

  lemma AfterStoreOk(p: Policy, c: Ctl, ans: Answers, s: State, fate: Fate)
    requires c.Working? && WorkOk(c) && ViewOf(s) == c.view && DecisionOf(p, c, ans).Write?
    ensures WorkOk(AfterStore(c, DecisionOf(p, c, ans).op, Mutate(s, DecisionOf(p, c, ans).op), fate))
  {
    var op := DecisionOf(p, c, ans).op;
    if Recovering(c.snap) {
      RecoveryWrites(p, c, ans, s);
    }
    if op.ForceZero? {
      ForceZeroMeansRecovery(p, c, ans);
    }
    hide Decide;
    hide Mutate;
    hide PhaseOk;
    hide ReleaseOk;
  }

  lemma ForceZeroMeansRecovery(p: Policy, c: Ctl, ans: Answers)
    requires c.Working? && DecisionOf(p, c, ans).Write? && DecisionOf(p, c, ans).op.ForceZero?
    ensures Recovering(c.snap) && !c.pos.Failing?
  {
    hide DecidePreparing;
    hide DecideRamp;
    hide DecideFinalizing;
    hide DecideDraining;
    hide DecideRecovery;
    hide DecideHandler;
  }

  /** A recovering tick never leaves the recovery phases except by ending the release. */
  lemma RecoveryWrites(p: Policy, c: Ctl, ans: Answers, s: State)
    requires c.Working? && WorkOk(c) && Recovering(c.snap) && ViewOf(s) == c.view
    requires DecisionOf(p, c, ans).Write?
    ensures var r := Mutate(s, DecisionOf(p, c, ans).op);
            r.Commit? ==>
              && (r.next.active.Some? ==> r.next.active.value.phase in {Rollback, Blocked})
              && (DecisionOf(p, c, ans).op.ForceZero? ==> ViewOf(r.next) == ViewOf(s))
  {
    hide ValidAuth;
  }

  lemma AcksKept(p: Policy, y: Sys, l: Label)
    requires SysInv(y) && Can(p, y, l)
    ensures AcksOk(Do(p, y, l))
  {
    hide Decide;
    hide RecordInv;
    hide WindowsOk;
    hide ReleasesOk;
    hide AcceptedOk;
    hide Step;
    match l
    case Store(o, ans, now, fate) =>
      CommitsAreNeverStale(p, y, o, ans, now, fate);
      hide Fenced;
      hide WorkersOk;
      StoreKeepsAcks(p, y, o, ans, now, fate);
    case Outside(op) =>
      hide Fenced;
      hide WorkersOk;
      var z := Do(p, y, l);
      assert forall q :: CtlOf(z, q) == CtlOf(y, q);
      WorldKeepsAcks(y, z, op);
    case Take(o, check, until, fate) =>
      hide Fenced;
      hide WorkersOk;
      var z := Do(p, y, l);
      assert forall q :: q != o ==> CtlOf(z, q) == CtlOf(y, q);
      if z.w != y.w {
        WorldKeepsAcks(y, z, Acquire(o, check, until));
      }
    case _ =>
      hide Fenced;
      hide WorkersOk;
      OthersKeepAcks(p, y, l);
  }

  lemma EnteringFinalizing(s: State, op: Op)
    requires Fits(s, op) && Mutate(s, op).Commit? && InPhase(Mutate(s, op).next, Finalizing)
    ensures Mutate(s, op).next.route == s.route
    ensures InPhase(s, Finalizing) || (op.Promote? && op.weight == s.route.weight == 100)
  {
    if ChangesQueue(op) {
      QueueKeepsView(s, op);
    }
  }

  /** Steps of other writers, and lease acquisition. */
  lemma WorldKeepsAcks(y: Sys, z: Sys, op: Op)
    requires AcksOk(y) && RoutesOk(y.w) && Fits(y.w.s, op) && !op.Promote? && z.w == Step(y.w, op)
    requires z.acked == y.acked && z.fetched == y.fetched && z.cache == y.cache
    requires forall q :: CtlOf(z, q) == CtlOf(y, q) || !CtlOf(z, q).Working?
    ensures AcksOk(z)
  {
    StepKeepsRoutes(y.w, op);
    if Mutate(y.w.s, op).Commit? && InPhase(z.w.s, Finalizing) {
      EnteringFinalizing(y.w.s, op);
    }
    hide Mutate;
    hide Remember;
  }

  lemma OthersKeepAcks(p: Policy, y: Sys, l: Label)
    requires AcksOk(y) && RoutesOk(y.w) && Can(p, y, l) && !l.Store? && !l.Outside? && !l.Take?
    ensures AcksOk(Do(p, y, l))
  {
    hide Decide;
    var z := Do(p, y, l);
    if l.Fetch? || l.Install? {
      assert forall q :: CtlOf(z, q) == CtlOf(y, q);
    } else {
      assert forall q :: q != l.o ==> CtlOf(z, q) == CtlOf(y, q);
    }
  }

  /** A write enters FINALIZING only with a weight of 100 that was acknowledged in this tick. */
  lemma FinalizingWasAcked(p: Policy, y: Sys, o: Owner, ans: Answers)
    requires AcksOk(y) && CtlOf(y, o).Working? && DecisionOf(p, CtlOf(y, o), ans).Write?
    requires Fits(y.w.s, DecisionOf(p, CtlOf(y, o), ans).op)
    requires !CtlOf(y, o).pos.Failing? ==> ViewOf(y.w.s) == ViewOf(CtlOf(y, o).snap)
    requires Mutate(y.w.s, DecisionOf(p, CtlOf(y, o), ans).op).Commit?
    requires InPhase(Mutate(y.w.s, DecisionOf(p, CtlOf(y, o), ans).op).next, Finalizing)
    ensures Mutate(y.w.s, DecisionOf(p, CtlOf(y, o), ans).op).next.route in y.acked
  {
    hide Decide;
    hide Mutate;
    var c := CtlOf(y, o);
    var op := DecisionOf(p, c, ans).op;
    EnteringFinalizing(y.w.s, op);
    if !InPhase(y.w.s, Finalizing) {
      PromotionIsEarned(p, c.snap, c.pos, c.seen, ans);
    }
    hide Fits;
  }

  lemma StoreKeepsAcks(p: Policy, y: Sys, o: Owner, ans: Answers, now: Time, fate: Fate)
    requires AcksOk(y) && RoutesOk(y.w) && Can(p, y, Store(o, ans, now, fate))
    requires Fits(y.w.s, DecisionOf(p, CtlOf(y, o), ans).op)
    requires !CtlOf(y, o).pos.Failing? ==> ViewOf(y.w.s) == ViewOf(CtlOf(y, o).snap)
    ensures AcksOk(Do(p, y, Store(o, ans, now, fate)))
  {
    hide Decide;
    hide Mutate;
    hide Remember;
    hide Fits;
    hide RoutesOk;
    var c := CtlOf(y, o);
    var op := DecisionOf(p, c, ans).op;
    var z := Do(p, y, Store(o, ans, now, fate));
    StepKeepsRoutes(y.w, op);
    if Mutate(y.w.s, op).Commit? && InPhase(Mutate(y.w.s, op).next, Finalizing) {
      FinalizingWasAcked(p, y, o, ans);
    }
    assert forall q :: q != o ==> CtlOf(z, q) == CtlOf(y, q);
  }

  /** The whole invariant is kept by every step of every interleaving. */
  lemma DoKeepsSysInv(p: Policy, y: Sys, l: Label)
    requires SysInv(y) && Can(p, y, l)
    ensures SysInv(Do(p, y, l))
  {
    RefinesMachine(p, y, l);
    var z := Do(p, y, l);
    if z.w != y.w {
      var op :| Fits(y.w.s, op) && z.w == Step(y.w, op);
      StepKeepsInv(y.w, op);
    }
    FenceKept(p, y, l);
    WorkersKept(p, y, l);
    AcksKept(p, y, l);
    hide Do;
    hide Inv;
    hide Fenced;
    hide WorkersOk;
    hide AcksOk;
  }
}
