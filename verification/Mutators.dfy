/**
 * Every closure that is handed to the store, with the values it captured.
 * A closure runs on whatever record the store read, exactly as written: apart
 * from what the source checks, nothing is rechecked here.
 */
module Mutators {
  import opened Bounded
  import opened ReleaseState
  import opened Authorization

  datatype Resolution =
    | Resolved(fingerprint: Digest, image: Option<string>, next: Time)
    | Unresolved(error: string, next: Time, maxAttempts: nat)

  datatype Op =
    // leased controllers
    | Acquire(owner: Owner, check: Time, until: Time)
    | Claim(check: Time, deadline: Time)
    | BeginRollback(reason: string, deadline: Time)
    | Arm(deadline: Time)
    | MarkStage(since: Time)
    | Promote(weight: nat, deadline: Time)
    | CommitStable(target: Serving, deadline: Time)
    | Complete(pair: Pair, authId: Hash)
    | ForceZero
    | Restore(previous: Serving, pair: Pair, cause: Option<string>, authId: Hash)
    | Block
    // everybody else
    | Ingest(event: Event)
    | Resolve(snapshot: Item, result: Resolution)
    | Recover(version: nat, now: Time)
    | Authorize(expected: Evidence, now: Time)
    | Bootstrap(serving: Serving, verified: bool)

  datatype Error = BusyError | ValueError | OtherError

  /** A closure either raises, or leaves a new record after logging at most one audit row. */
  datatype Outcome = Commit(next: State, logged: seq<Row>) | Raise(error: Error)

  function Silent(s: State): Outcome {
    Commit(s, [])
  }

  function Logged(s: State, row: Row): Outcome {
    Commit(Audit(s, row), [row])
  }

  // ----- ingestion ---------------------------------------------------------

  function Known(identities: seq<Identity>, version: nat): Option<Identity> {
    if identities == [] then None
    else if identities[0].version == version then Some(identities[0])
    else Known(identities[1..], version)
  }

  function IngestDecision(s: State, e: Event): IngestResult {
    match Known(s.identities, e.version)
    case Some(k) => if k == IdentityOf(e) then Duplicate else IdentityConflict
    case None => if e.version <= s.highest then Stale else Accept
  }

  function NewItem(e: Event): Item {
    Item(e, Accepted, 0, 0.0, None, None, None, None, None)
  }

  function IngestOp(s: State, e: Event): Outcome {
    var result := IngestDecision(s, e);
    if result != Accept then Logged(s, Ingested(result, e.version))
    else if |s.pending| >= MAX_PENDING then Raise(BusyError)
    else
      Logged(s.(pending := s.pending + [NewItem(e)], highest := e.version,
                identities := Last(s.identities + [IdentityOf(e)], HISTORY)),
             Ingested(Accept, e.version))
  }

  // ----- resolution and recovery -------------------------------------------

  predicate Resolvable(item: Item) {
    item.status in {Accepted, ResolutionRetry, BuildRequired}
  }

  function Apply(item: Item, r: Resolution): Item {
    match r
    case Resolved(fp, image, next) =>
      var done := item.(status := if image.Some? then ReadyForRelease else BuildRequired, fingerprint := Some(fp),
                        request := Some(Request(fp, true)), nextAttempt := next, attempts := 0);
      if image.Some?
      then done.(pair := Some(Pair(item.event.version, image.value, item.event.uri)))
      else done
    case Unresolved(error, next, maxAttempts) =>
      var attempts := item.attempts + 1;
      item.(status := if attempts >= maxAttempts then ResolutionBlocked else ResolutionRetry,
            attempts := attempts, nextAttempt := next, error := Some(error))
  }

  function FindEvent(items: seq<Item>, e: Event): (i: nat)
    ensures i <= |items|
    ensures i < |items| ==> items[i].event == e
  {
    if items == [] || items[0].event == e then 0 else 1 + FindEvent(items[1..], e)
  }

  function ResolveOp(s: State, snapshot: Item, r: Resolution): Outcome {
    var i := FindEvent(s.pending, snapshot.event);
    if i == |s.pending| || s.pending[i] != snapshot then Silent(s)
    else
      var item := Apply(snapshot, r);
      Logged(s.(pending := s.pending[i := item]), Resolution(item.status, snapshot.event.version))
  }

  function RecoverOp(s: State, version: nat, now: Time): Outcome {
    var i := FindVersion(s.pending, version);
    if |WithVersion(s.pending, version)| != 1 || i == |s.pending| then Raise(ValueError)
    else if s.pending[i].status != ResolutionBlocked then Raise(ValueError)
    else
      Logged(s.(pending := s.pending[i := s.pending[i].(status := ResolutionRetry, attempts := 0,
                                                        nextAttempt := now, error := None)]),
             Recovered(version))
  }

  // ----- authorization and bootstrap ---------------------------------------

  predicate MayReplace(previous: Auth, expected: Evidence, now: Time) {
    && now >= previous.expiresAt
    && expected.supersedes == Some(previous.hash)
    && expected.runId != previous.evidence.runId
    && expected.created >= previous.expiresAt
    && expected.basis == previous.evidence.basis
  }

  function AuthorizeOp(s: State, expected: Evidence, now: Time): Outcome {
    var version := expected.basis.candidate.serving.pair.version;
    var i := FindVersion(s.pending, version);
    if Snapshot(s, version) != Some(expected.basis) || i == |s.pending| then Raise(ValueError)
    else
      var item := s.pending[i];
      if item.auth.Some? && item.auth.value.evidence == expected then
        if Claimable(s, item, now) then Silent(s) else Raise(ValueError)
      else if item.auth.Some? && !MayReplace(item.auth.value, expected, now) then Raise(ValueError)
      else if item.auth.None? && expected.supersedes.Some? then Raise(ValueError)
      else
        var auth := Auth(expected, Of(expected), now, now + TTL);
        if !ValidAuth(auth, CandidateOf(item)) then Raise(ValueError)
        else
          Logged(s.(pending := s.pending[i := item.(status := ApprovedForRelease, auth := Some(auth))]),
                 Authorized(version, auth.hash, if item.auth.Some? then Some(item.auth.value.hash) else None))
  }

  function BootstrapOp(s: State, serving: Serving, verified: bool): Outcome {
    if s.active.Some? || s.pending != [] || s.lease.Some? || s.route.weight != 0 then Raise(ValueError)
    else if s.stable.Some? && s.stable.value != serving then Raise(ValueError)
    else if s.highest > serving.pair.version || !verified then Raise(ValueError)
    else if s.stable.Some? then Silent(s)
    else Logged(s.(stable := Some(serving), highest := serving.pair.version), Bootstrapped(serving))
  }

  // ----- controllers --------------------------------------------------------

  /** False (no write) is the answer that another owner still holds the lease. */
  predicate LeaseTaken(s: State, owner: Owner, check: Time) {
    s.lease.Some? && s.lease.value.owner != owner && s.lease.value.until > check
  }

  function Eligible(s: State, items: seq<Item>, now: Time): (r: seq<Item>)
    requires s.stable.Some?
    ensures forall x :: x in r <==> x in items && Claimable(s, x, now)
                                    && x.pair.value.version > s.stable.value.pair.version
  {
    if items == [] then [] else
    (if Claimable(s, items[0], now) && items[0].pair.value.version > s.stable.value.pair.version
     then [items[0]] else []) + Eligible(s, items[1..], now)
  }

  /** First item of greatest pair version. */
  function Newest(items: seq<Item>): (x: Item)
    requires items != [] && forall x :: x in items ==> x.pair.Some?
    ensures x in items
    ensures forall y :: y in items ==> y.pair.value.version <= x.pair.value.version
  {
    if |items| == 1 then items[0]
    else
      var rest := Newest(items[1..]);
      if items[0].pair.value.version >= rest.pair.value.version then items[0] else rest
  }

  function Newer(items: seq<Item>, version: nat): (r: seq<Item>)
    ensures forall x :: x in r <==> x in items && x.event.version > version
  {
    if items == [] then [] else
    (if items[0].event.version > version then [items[0]] else []) + Newer(items[1..], version)
  }

  /** The claim closure overwrites `active` without looking at it. */
  function ClaimOp(s: State, check: Time, deadline: Time): Outcome {
    if s.stable.None? then Silent(s)
    else
      var eligible := Eligible(s, s.pending, check);
      if eligible == [] then Silent(s)
      else
        var candidate := Newest(eligible);
        var target := Serving(candidate.pair.value, candidate.fingerprint.value);
        var a := Active(target, s.stable.value, Preparing, None, deadline, None, candidate.auth.value);
        var s1 := s.(pending := Newer(s.pending, target.pair.version), active := Some(a));
        Logged(SetRoute(s1, 0), Started(target.pair, a.auth.hash))
  }

  function BeginRollbackOp(s: State, reason: string, deadline: Time): Outcome {
    if s.active.None? then Raise(OtherError)
    else if s.active.value.phase in {Rollback, Blocked} then Silent(s)
    else
      var a := s.active.value.(phase := Rollback, reason := Some(reason), deadline := deadline);
      Logged(SetRoute(s.(active := Some(a)), 0), RollbackRequested(reason))
  }

  function ArmOp(s: State, deadline: Time): Outcome {
    if s.active.None? then Raise(OtherError)
    else
      Silent(SetRoute(s.(active := Some(s.active.value.(phase := Ramp, stageSince := None, deadline := deadline))), 10))
  }

  function NextStage(weight: nat): nat {
    if weight == 10 then 25 else if weight == 25 then 50 else 100
  }

  function PromoteOp(s: State, weight: nat, deadline: Time): Outcome {
    if s.active.None? || !IsStage(weight) then Raise(OtherError)
    else
      var a := s.active.value.(deadline := deadline);
      var s1 :=
        if weight == 100 then s.(active := Some(a.(phase := Finalizing)))
        else SetRoute(s, NextStage(weight)).(active := Some(a.(stageSince := None)));
      Logged(s1, StagePromoted(weight))
  }

  function CommitStableOp(s: State, target: Serving, deadline: Time): Outcome {
    if s.active.None? then Raise(OtherError)
    else
      var a := s.active.value.(phase := Draining, deadline := deadline);
      Logged(SetRoute(s.(stable := Some(target), active := Some(a)), 0), StableCommitted(target.pair))
  }

  function CompleteOp(s: State, pair: Pair, authId: Hash): Outcome {
    Logged(s.(processed := Last(s.processed + [pair], HISTORY), active := None), Completed(pair, authId))
  }

  function RestoreOp(s: State, previous: Serving, pair: Pair, cause: Option<string>, authId: Hash): Outcome {
    if cause.None? then Raise(OtherError)
    else
      Logged(s.(stable := Some(previous), failed := Last(s.failed + [Failure(pair, cause.value)], HISTORY),
                active := None),
             RolledBack(previous.pair, authId))
  }

  function Mutate(s: State, op: Op): Outcome {
    match op
    case Acquire(owner, check, until) =>
      Silent(if LeaseTaken(s, owner, check) then s else s.(lease := Some(Lease(owner, until))))
    case Claim(check, deadline) => ClaimOp(s, check, deadline)
    case BeginRollback(reason, deadline) => BeginRollbackOp(s, reason, deadline)
    case Arm(deadline) => ArmOp(s, deadline)
    case MarkStage(since) =>
      if s.active.None? then Raise(OtherError)
      else Silent(s.(active := Some(s.active.value.(stageSince := Some(since)))))
    case Promote(weight, deadline) => PromoteOp(s, weight, deadline)
    case CommitStable(target, deadline) => CommitStableOp(s, target, deadline)
    case Complete(pair, authId) => CompleteOp(s, pair, authId)
    case ForceZero => Silent(SetRoute(s, 0))
    case Restore(previous, pair, cause, authId) => RestoreOp(s, previous, pair, cause, authId)
    case Block =>
      if s.active.None? then Raise(OtherError)
      else Silent(s.(active := Some(s.active.value.(phase := Blocked))))
    case Ingest(event) => IngestOp(s, event)
    case Resolve(snapshot, result) => ResolveOp(s, snapshot, result)
    case Recover(version, now) => RecoverOp(s, version, now)
    case Authorize(expected, now) => AuthorizeOp(s, expected, now)
    case Bootstrap(serving, verified) => BootstrapOp(s, serving, verified)
  }

  predicate ByController(op: Op) {
    op.Claim? || op.BeginRollback? || op.Arm? || op.MarkStage? || op.Promote? || op.CommitStable? || op.Complete?
    || op.ForceZero? || op.Restore? || op.Block?
  }
}
