/**
 * Whole runs of the record, next to the history that the record only keeps a
 * bounded window of. Every property here is about all runs of fitting closures
 * (module Cluster shows that concurrent controllers produce exactly such runs).
 */
module Machine {
  import opened Bounded
  import opened ReleaseState
  import opened Authorization
  import opened Mutators
  import opened Lifecycle

  datatype End = Won | Lost(reason: string)

  /** Everything that ever happened; `claims[i]` is release i as claimed, `ends[i]` how it ended. */
  datatype History = History(audit: seq<Row>, accepted: seq<Identity>, processed: seq<Pair>, failed: seq<Failure>,
                             auths: seq<Auth>, claims: seq<Active>, ends: seq<End>,
                             routes: set<Route>)

  datatype World = World(s: State, h: History)

  function InitialWorld(stable: Option<Serving>): World {
    World(InitialState(stable), History([], [], [], [], [], [], [], {Route(0, 0)}))
  }

  function Remember(h0: History, op: Op, next: State, logged: seq<Row>): (r: History)
    ensures r.audit == h0.audit + logged && r.routes == h0.routes + {next.route}
  {
    var h := h0.(audit := h0.audit + logged, routes := h0.routes + {next.route});
    if logged == [] then h
    else
      match logged[0]
      case Ingested(Accept, _) =>
        if op.Ingest? then h.(accepted := h.accepted + [IdentityOf(op.event)]) else h
      case Authorized(_, _, _) =>
        if op.Authorize? then h.(auths := h.auths + [Auth(op.expected, Of(op.expected), op.now, op.now + TTL)]) else h
      case Started(_, _) =>
        if next.active.Some? then h.(claims := h.claims + [next.active.value]) else h
      case Completed(p, _) =>
        h.(processed := h.processed + [p], ends := h.ends + [Won])
      case RolledBack(_, _) =>
        if op.Restore? && op.cause.Some?
        then h.(failed := h.failed + [Failure(op.pair, op.cause.value)], ends := h.ends + [Lost(op.cause.value)])
        else h
      case _ => h
  }

  /** One committed store update; a closure that raises commits nothing. */
  function Step(w: World, op: Op): World {
    match Mutate(w.s, op)
    case Raise(_) => w
    case Commit(next, logged) => World(next, Remember(w.h, op, next, logged))
  }

  // ----- bounded windows ------------------------------------------------------

  ghost predicate WindowsOk(w: World) {
    && w.s.audit == Last(w.h.audit, HISTORY)
    && w.s.identities == Last(w.h.accepted, HISTORY)
    && w.s.processed == Last(w.h.processed, HISTORY)
    && w.s.failed == Last(w.h.failed, HISTORY)
  }

  ghost predicate Appends<T>(small: seq<T>, full: seq<T>, small': seq<T>, full': seq<T>) {
    (small' == small && full' == full)
    || (|full'| == |full| + 1 && full' == full + [full'[|full|]]
        && small' == Last(small + [full'[|full|]], HISTORY))
  }

  lemma AppendsKeepsWindow<T>(small: seq<T>, full: seq<T>, small': seq<T>, full': seq<T>)
    requires small == Last(full, HISTORY) && Appends(small, full, small', full')
    ensures small' == Last(full', HISTORY)
  {
    if full' != full {
      LastAppend(full, full'[|full|], HISTORY);
    }
  }

  lemma AuditMoves(s: State, op: Op)
    ensures var r := Mutate(s, op);
            r.Commit? ==> (r.logged == [] && r.next.audit == s.audit)
                          || (|r.logged| == 1 && r.next.audit == Last(s.audit + [r.logged[0]], HISTORY))
  {
  }

  lemma AuditAppends(w: World, op: Op)
    ensures Appends(w.s.audit, w.h.audit, Step(w, op).s.audit, Step(w, op).h.audit)
  {
    AuditMoves(w.s, op);
    hide Mutate;
    hide Remember;
    match Mutate(w.s, op)
    case Raise(_) =>
    case Commit(next, logged) =>
      if logged == [] {
        assert w.h.audit + logged == w.h.audit;
      } else {
        assert logged == [logged[0]];
      }
  }

  lemma OtherListsMove(s: State, op: Op)
    ensures var r := Mutate(s, op);
            r.Commit? ==>
              && (!op.Complete? ==> r.next.processed == s.processed && (r.logged != [] ==> !r.logged[0].Completed?))
              && (!op.Restore? ==> r.next.failed == s.failed)
              && (!op.Ingest? ==> r.next.identities == s.identities)
  {
  }

  ghost predicate ListsAppend(w: World, v: World) {
    && Appends(w.s.identities, w.h.accepted, v.s.identities, v.h.accepted)
    && Appends(w.s.processed, w.h.processed, v.s.processed, v.h.processed)
    && Appends(w.s.failed, w.h.failed, v.s.failed, v.h.failed)
  }

  lemma IngestAppends(w: World, e: Event)
    ensures ListsAppend(w, Step(w, Ingest(e)))
  {
    var r := IngestOp(w.s, e);
    assert Mutate(w.s, Ingest(e)) == r;
    hide Mutate;
  }

  lemma EndAppends(w: World, op: Op)
    requires op.Complete? || op.Restore?
    ensures ListsAppend(w, Step(w, op))
  {
    assert Mutate(w.s, op) == if op.Complete? then CompleteOp(w.s, op.pair, op.authId)
                              else RestoreOp(w.s, op.previous, op.pair, op.cause, op.authId);
    hide Mutate;
  }

  lemma StepAppendsLists(w: World, op: Op)
    ensures ListsAppend(w, Step(w, op))
  {
    if op.Ingest? {
      IngestAppends(w, op.event);
    } else if op.Complete? || op.Restore? {
      EndAppends(w, op);
    } else {
      OthersAppendNothing(w, op);
    }
  }

  lemma OthersAppendNothing(w: World, op: Op)
    requires !op.Ingest? && !op.Complete? && !op.Restore?
    ensures var v := Step(w, op);
            && v.s.identities == w.s.identities && v.h.accepted == w.h.accepted
            && v.s.processed == w.s.processed && v.h.processed == w.h.processed
            && v.s.failed == w.s.failed && v.h.failed == w.h.failed
  {
    OtherListsMove(w.s, op);
    hide Mutate;
  }

  /** The four bounded lists are always the last-100 windows of the full histories. */
  lemma StepKeepsWindows(w: World, op: Op)
    requires WindowsOk(w)
    ensures WindowsOk(Step(w, op))
  {
    AuditAppends(w, op);
    StepAppendsLists(w, op);
    hide Step;
    var v := Step(w, op);
    AppendsKeepsWindow(w.s.audit, w.h.audit, v.s.audit, v.h.audit);
    AppendsKeepsWindow(w.s.identities, w.h.accepted, v.s.identities, v.h.accepted);
    AppendsKeepsWindow(w.s.processed, w.h.processed, v.s.processed, v.h.processed);
    AppendsKeepsWindow(w.s.failed, w.h.failed, v.s.failed, v.h.failed);
  }

  // ----- routes ----------------------------------------------------------------

  ghost predicate RoutesOk(w: World) {
    && w.s.route in w.h.routes
    && (forall r :: r in w.h.routes ==> r.revision <= w.s.route.revision)
    && (forall r, q :: r in w.h.routes && q in w.h.routes && r.revision == q.revision ==> r == q)
  }

  lemma RouteMoves(s: State, op: Op)
    ensures Mutate(s, op).Commit? ==>
              var r := Mutate(s, op).next.route;
              r == s.route || r.revision == s.route.revision + 1
  {
  }

  lemma StepKeepsRoutes(w: World, op: Op)
    requires RoutesOk(w)
    ensures RoutesOk(Step(w, op)) && w.h.routes <= Step(w, op).h.routes
    ensures w.s.route.revision <= Step(w, op).s.route.revision
  {
    RouteMoves(w.s, op);
    hide Mutate;
    hide Remember;
  }

  // ----- releases ----------------------------------------------------------------

  /** The stable serving that a finished release leaves behind. */
  function Result(c: Active, e: End): Serving {
    if e.Won? then c.target else c.previous
  }

  function WonPairs(claims: seq<Active>, ends: seq<End>): seq<Pair>
    requires |ends| <= |claims|
  {
    if ends == [] then [] else
    WonPairs(claims, ends[..|ends| - 1])
    + (if ends[|ends| - 1].Won? then [claims[|ends| - 1].target.pair] else [])
  }

  function LostReleases(claims: seq<Active>, ends: seq<End>): seq<Failure>
    requires |ends| <= |claims|
  {
    if ends == [] then [] else
    LostReleases(claims, ends[..|ends| - 1])
    + (if ends[|ends| - 1].Lost? then [Failure(claims[|ends| - 1].target.pair, ends[|ends| - 1].reason)] else [])
  }

  ghost predicate Sound(c: Active, highest: nat) {
    c.previous.pair.version < c.target.pair.version <= highest && ValidAuth(c.auth, ActiveCandidate(c))
  }

  ghost predicate Increasing(claims: seq<Active>) {
    forall i, j :: 0 <= i < j < |claims| ==> claims[i].target.pair.version < claims[j].target.pair.version
  }

  /** Release i + 1 starts from the stable serving that release i left behind. */
  ghost predicate Baselines(claims: seq<Active>, ends: seq<End>) {
    forall i :: 0 < i < |claims| && i <= |ends| ==> claims[i].previous == Result(claims[i - 1], ends[i - 1])
  }

  ghost predicate QueueAbove(s: State, claims: seq<Active>) {
    claims != [] ==>
      forall i :: 0 <= i < |s.pending| ==> s.pending[i].event.version > claims[|claims| - 1].target.pair.version
  }

  /** The record's release is the last claim; an idle record holds what the last claim left behind. */
  ghost predicate Current(s: State, claims: seq<Active>, ends: seq<End>) {
    match s.active
    case Some(a) =>
      && |claims| == |ends| + 1
      && var c := claims[|ends|];
      && a.target == c.target && a.previous == c.previous && a.auth == c.auth
    case None =>
      && |claims| == |ends|
      && (claims != [] ==> s.stable == Some(Result(claims[|claims| - 1], ends[|ends| - 1])))
  }

  ghost predicate ReleasesOk(w: World) {
    && Current(w.s, w.h.claims, w.h.ends)
    && (forall i :: 0 <= i < |w.h.claims| ==> Sound(w.h.claims[i], w.s.highest))
    && Increasing(w.h.claims)
    && QueueAbove(w.s, w.h.claims)
    && Baselines(w.h.claims, w.h.ends)
    && w.h.processed == WonPairs(w.h.claims, w.h.ends)
    && w.h.failed == LostReleases(w.h.claims, w.h.ends)
  }

  lemma {:induction false} FinishedReleasesFrame(claims: seq<Active>, c: Active, ends: seq<End>)
    requires |ends| <= |claims|
    ensures WonPairs(claims + [c], ends) == WonPairs(claims, ends)
    ensures LostReleases(claims + [c], ends) == LostReleases(claims, ends)
  {
    if ends != [] {
      FinishedReleasesFrame(claims, c, ends[..|ends| - 1]);
    }
  }

  /** A step either keeps the release, starts one, or ends the active one. */
  ghost predicate Keeps(w: World, v: World) {
    && (w.s.active.None? <==> v.s.active.None?)
    && (w.s.active.Some? ==>
          && v.s.active.value.target == w.s.active.value.target
          && v.s.active.value.previous == w.s.active.value.previous
          && v.s.active.value.auth == w.s.active.value.auth)
    && (w.s.active.None? ==> v.s.stable == w.s.stable || w.s.stable.None?)
    && v.h.claims == w.h.claims && v.h.ends == w.h.ends
    && v.h.processed == w.h.processed && v.h.failed == w.h.failed
    && (QueueKept(w, v) || QueueGrows(w, v))
  }

  ghost predicate QueueKept(w: World, v: World) {
    && w.s.highest <= v.s.highest
    && |v.s.pending| == |w.s.pending|
    && (forall i :: 0 <= i < |w.s.pending| ==> v.s.pending[i].event == w.s.pending[i].event)
    && v.h.accepted == w.h.accepted
  }

  ghost predicate QueueGrows(w: World, v: World) {
    && |v.s.pending| == |w.s.pending| + 1
    && v.s.pending[..|w.s.pending|] == w.s.pending
    && var e := v.s.pending[|w.s.pending|].event;
    && w.s.highest < e.version == v.s.highest
    && v.h.accepted == w.h.accepted + [IdentityOf(e)]
  }

  ghost predicate Starts(w: World, v: World) {
    && w.s.active.None? && v.s.active.Some? && w.s.stable.Some? && v.s.stable == w.s.stable
    && v.s.highest == w.s.highest && v.s.pending == []
    && var a := v.s.active.value;
    && a.target.pair.version == w.s.highest > a.previous.pair.version
    && a.previous == w.s.stable.value
    && ValidAuth(a.auth, ActiveCandidate(a))
    && (exists i :: 0 <= i < |w.s.pending| && w.s.pending[i].event.version == w.s.highest)
    && v.h.accepted == w.h.accepted
    && v.h.claims == w.h.claims + [a] && v.h.ends == w.h.ends
    && v.h.processed == w.h.processed && v.h.failed == w.h.failed
  }

  ghost predicate Ends(w: World, v: World, e: End) {
    && w.s.active.Some? && v.s.active.None?
    && v.s.stable == Some(if e.Won? then w.s.active.value.target else w.s.active.value.previous)
    && v.s.highest == w.s.highest && v.s.pending == w.s.pending && v.h.accepted == w.h.accepted
    && v.h.claims == w.h.claims && v.h.ends == w.h.ends + [e]
    && v.h.processed == w.h.processed + (if e.Won? then [w.s.active.value.target.pair] else [])
    && v.h.failed == w.h.failed + (if e.Lost? then [Failure(w.s.active.value.target.pair, e.reason)] else [])
  }

  lemma StepCases(w: World, op: Op)
    requires RecordInv(w.s) && Fits(w.s, op)
    ensures var v := Step(w, op);
            Keeps(w, v) || Starts(w, v) || Ends(w, v, Won)
            || (w.s.active.Some? && w.s.active.value.reason.Some? && Ends(w, v, Lost(w.s.active.value.reason.value)))
  {
    if Mutate(w.s, op).Raise? {
      hide Mutate;
      assert Keeps(w, Step(w, op));
    } else if ChangesQueue(op) {
      QueueCase(w, op);
    } else if op.Claim? && Mutate(w.s, op).logged != [] {
      ClaimCase(w, op);
    } else if op.Complete? || op.Restore? {
      EndCase(w, op);
    } else {
      OtherCase(w, op);
    }
  }

  /** What a successful claim adds to the history. */
  lemma ClaimStep(w: World, op: Op)
    requires op.Claim? && ClaimOp(w.s, op.check, op.deadline).Commit?
    requires ClaimOp(w.s, op.check, op.deadline).logged != []
    ensures var v, r := Step(w, op), ClaimOp(w.s, op.check, op.deadline);
            && v.s == r.next && r.next.active.Some? && |r.logged| == 1
            && v.h == w.h.(audit := w.h.audit + r.logged, routes := w.h.routes + {r.next.route},
                           claims := w.h.claims + [r.next.active.value])
  {
    var r := ClaimOp(w.s, op.check, op.deadline);
    ClaimFrame(w.s, op.check, op.deadline);
    assert Mutate(w.s, op) == r;
    hide Mutate;
    hide ClaimOp;
  }

  lemma ClaimCase(w: World, op: Op)
    requires PendingOk(w.s) && op.Claim? && ClaimOp(w.s, op.check, op.deadline).Commit?
    requires ClaimOp(w.s, op.check, op.deadline).logged != []
    ensures Starts(w, Step(w, op))
  {
    ClaimStep(w, op);
    ClaimCorrect(w.s, op.check, op.deadline);
    ClaimFrame(w.s, op.check, op.deadline);
    hide Step;
    hide ClaimOp;
    hide ValidAuth;
    hide PendingOk;
  }

  lemma EndCase(w: World, op: Op)
    requires RecordInv(w.s) && Fits(w.s, op) && (op.Complete? || op.Restore?)
    ensures op.Complete? ==> Ends(w, Step(w, op), Won)
    ensures op.Restore? ==> Ends(w, Step(w, op), Lost(w.s.active.value.reason.value))
  {
  }

  lemma OtherCase(w: World, op: Op)
    requires PhaseOk(w.s) && Fits(w.s, op) && Mutate(w.s, op).Commit?
    requires !ChangesQueue(op) && !op.Complete? && !op.Restore? && (op.Claim? ==> Mutate(w.s, op).logged == [])
    ensures Keeps(w, Step(w, op))
  {
  }

  lemma QueueCase(w: World, op: Op)
    requires ChangesQueue(op) && Mutate(w.s, op).Commit?
    ensures Keeps(w, Step(w, op))
  {
    QueueKeepsView(w.s, op);
    QueueAligned(w.s, op);
    QueueLogs(w.s, op);
    hide Mutate;
  }

  lemma QueueLogs(s: State, op: Op)
    requires ChangesQueue(op) && Mutate(s, op).Commit?
    ensures var r := Mutate(s, op);
            && (r.logged != [] ==> !r.logged[0].Started? && !r.logged[0].Completed? && !r.logged[0].RolledBack?)
            && (r.logged != [] && r.logged[0].Ingested? && r.logged[0].result == Accept
                <==> |r.next.pending| > |s.pending|)
  {
    match op
    case Ingest(e) => assert Mutate(s, op) == IngestOp(s, e);
    case Resolve(snapshot, r) => assert Mutate(s, op) == ResolveOp(s, snapshot, r);
    case Recover(version, now) => assert Mutate(s, op) == RecoverOp(s, version, now);
    case Authorize(expected, now) => assert Mutate(s, op) == AuthorizeOp(s, expected, now);
  }

  lemma StepKeepsReleases(w: World, op: Op)
    requires RecordInv(w.s) && ReleasesOk(w) && Fits(w.s, op)
    ensures ReleasesOk(Step(w, op))
  {
    StepCases(w, op);
    var v := Step(w, op);
    hide Step;
    if Starts(w, v) {
      StartKeepsReleases(w, v);
    } else if Keeps(w, v) {
      KeepKeepsReleases(w, v);
    } else {
      var e :| Ends(w, v, e);
      EndKeepsReleases(w, v, e);
    }
  }

  lemma KeepKeepsReleases(w: World, v: World)
    requires ReleasesOk(w) && Keeps(w, v)
    ensures ReleasesOk(v)
  {
    hide ValidAuth;
    hide Increasing;
    hide Baselines;
    assert QueueAbove(v.s, v.h.claims) by {
      if w.h.claims != [] {
        assert Sound(w.h.claims[|w.h.claims| - 1], w.s.highest);
      }
    }
  }

  lemma EndKeepsReleases(w: World, v: World, e: End)
    requires ReleasesOk(w) && Ends(w, v, e)
    ensures ReleasesOk(v)
  {
    hide ValidAuth;
    hide Increasing;
    assert v.h.ends[..|v.h.ends| - 1] == w.h.ends;
  }

  lemma StartKeepsReleases(w: World, v: World)
    requires ReleasesOk(w) && Starts(w, v)
    ensures ReleasesOk(v)
  {
    hide ValidAuth;
    var a := v.s.active.value;
    FinishedReleasesFrame(w.h.claims, a, w.h.ends);
    hide WonPairs;
    hide LostReleases;
    assert Increasing(w.h.claims + [a]) by {
      var i :| 0 <= i < |w.s.pending| && w.s.pending[i].event.version == w.s.highest;
    }
    hide Increasing;
    assert forall i :: 0 <= i < |v.h.claims| ==> Sound(v.h.claims[i], v.s.highest);
    hide Sound;
  }

  /** The stable version that the system falls back to: the stable one when idle, else the previous one. */
  function Baseline(s: State): nat {
    if s.active.Some? then s.active.value.previous.pair.version
    else if s.stable.Some? then s.stable.value.pair.version
    else 0
  }

  lemma HighestNeverDecreases(s: State, op: Op)
    requires PhaseOk(s) && Fits(s, op) && Mutate(s, op).Commit?
    ensures s.highest <= Mutate(s, op).next.highest
  {
    if ChangesQueue(op) {
      QueueKeepsView(s, op);
    } else if op.Claim? {
      if Mutate(s, op).logged != [] {
        ClaimFrame(s, op.check, op.deadline);
      }
    }
  }

  /** Between idle records the stable version never decreases, whatever is promoted or rolled back in between. */
  lemma BaselineNeverDecreases(s: State, op: Op)
    requires RecordInv(s) && Fits(s, op) && Mutate(s, op).Commit?
    ensures Baseline(s) <= Baseline(Mutate(s, op).next)
  {
    hide PendingOk;
    hide ValidAuth;
    if ChangesQueue(op) {
      QueueKeepsView(s, op);
      hide Mutate;
    } else if op.Claim? {
      if Mutate(s, op).logged != [] {
        ClaimCorrect(s, op.check, op.deadline);
        hide Mutate;
      }
    }
  }
}
