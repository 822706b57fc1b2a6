/** The copied record that a closure changes in place, field by field. */
module Record {
  import opened Bounded
  import opened ReleaseState
  import opened Authorization
  import opened Mutators

  class Draft {
    var highest: nat
    var pending: seq<Item>
    var active: Option<Active>
    var stable: Option<Serving>
    var processed: seq<Pair>
    var failed: seq<Failure>
    var identities: seq<Identity>
    var audit: seq<Row>
    var route: Route
    var lease: Option<Lease>

    function View(): State
      reads this
    {
      State(highest, pending, active, stable, processed, failed, identities, audit, route, lease)
    }

    constructor (s: State)
      ensures View() == s
    {
      highest, pending, active, stable := s.highest, s.pending, s.active, s.stable;
      processed, failed, identities, audit := s.processed, s.failed, s.identities, s.audit;
      route, lease := s.route, s.lease;
    }

    method Log(row: Row)
      modifies this`audit
      ensures View() == Audit(old(View()), row)
    {
      audit := audit + [row];
      if |audit| > HISTORY {
        audit := audit[|audit| - HISTORY..];
      }
    }

    method Steer(weight: nat)
      modifies this`route
      ensures View() == SetRoute(old(View()), weight)
    {
      if route.weight != weight {
        route := Route(weight, route.revision + 1);
      }
    }

    method FindIdentity(version: nat) returns (known: Option<Identity>)
      ensures known == Known(identities, version)
    {
      var i := 0;
      assert identities[0..] == identities;
      while i < |identities|
        invariant i <= |identities| && Known(identities, version) == Known(identities[i..], version)
      {
        if identities[i].version == version {
          return Some(identities[i]);
        }
        assert identities[i..][1..] == identities[i + 1..];
        i := i + 1;
      }
      return None;
    }

    /** Ingestion, as for one queue message or one reconciliation read. */
    method Accept(e: Event) returns (error: Option<Error>, result: IngestResult)
      modifies this
      ensures error.Some? ==> IngestOp(old(View()), e) == Raise(error.value)
      ensures error.None? ==> IngestOp(old(View()), e).Commit? && View() == IngestOp(old(View()), e).next
      ensures error.None? ==> result == IngestDecision(old(View()), e)
    {
      var known := FindIdentity(e.version);
      if known.Some? {
        result := if known.value == IdentityOf(e) then Duplicate else IdentityConflict;
      } else if e.version <= highest {
        result := Stale;
      } else {
        result := IngestResult.Accept;
        if |pending| >= MAX_PENDING {
          return Some(BusyError), result;
        }
        pending := pending + [NewItem(e)];
        highest := e.version;
        identities := Last(identities + [IdentityOf(e)], HISTORY);
      }
      Log(Ingested(result, e.version));
      error := None;
    }

    method StartRelease(check: Time, deadline: Time)
      modifies this
      ensures ClaimOp(old(View()), check, deadline).Commit?
      ensures View() == ClaimOp(old(View()), check, deadline).next
    {
      if stable.None? {
        return;
      }
      var eligible := Eligible(View(), pending, check);
      if eligible == [] {
        return;
      }
      var candidate := Newest(eligible);
      pending := Newer(pending, candidate.pair.value.version);
      active := Some(Active(Serving(candidate.pair.value, candidate.fingerprint.value), stable.value, Preparing,
                            None, deadline, None, candidate.auth.value));
      Steer(0);
      Log(Started(candidate.pair.value, candidate.auth.value.hash));
    }

    method RollBack(reason: string, deadline: Time) returns (error: Option<Error>)
      modifies this
      ensures error.Some? ==> BeginRollbackOp(old(View()), reason, deadline) == Raise(error.value)
      ensures error.None? ==>
                BeginRollbackOp(old(View()), reason, deadline).Commit?
                && View() == BeginRollbackOp(old(View()), reason, deadline).next
    {
      if active.None? {
        return Some(OtherError);
      }
      if active.value.phase == Rollback || active.value.phase == Blocked {
        return None;
      }
      active := Some(active.value.(phase := Rollback, reason := Some(reason), deadline := deadline));
      Steer(0);
      Log(RollbackRequested(reason));
      return None;
    }

    method Advance(weight: nat, deadline: Time) returns (error: Option<Error>)
      modifies this
      ensures error.Some? ==> PromoteOp(old(View()), weight, deadline) == Raise(error.value)
      ensures error.None? ==>
                PromoteOp(old(View()), weight, deadline).Commit?
                && View() == PromoteOp(old(View()), weight, deadline).next
    {
      if active.None? || !IsStage(weight) {
        return Some(OtherError);
      }
      if weight == 100 {
        active := Some(active.value.(phase := Finalizing, deadline := deadline));
      } else {
        Steer(NextStage(weight));
        active := Some(active.value.(stageSince := None, deadline := deadline));
      }
      Log(StagePromoted(weight));
      return None;
    }

    method Finalize(target: Serving, deadline: Time) returns (error: Option<Error>)
      modifies this
      ensures error.Some? ==> CommitStableOp(old(View()), target, deadline) == Raise(error.value)
      ensures error.None? ==>
                CommitStableOp(old(View()), target, deadline).Commit?
                && View() == CommitStableOp(old(View()), target, deadline).next
    {
      stable := Some(target);
      if active.None? {
        return Some(OtherError);
      }
      active := Some(active.value.(phase := Draining, deadline := deadline));
      Steer(0);
      Log(StableCommitted(target.pair));
      return None;
    }

    method Finish(pair: Pair, authId: Hash)
      modifies this
      ensures CompleteOp(old(View()), pair, authId).Commit?
      ensures View() == CompleteOp(old(View()), pair, authId).next
    {
      processed := Last(processed + [pair], HISTORY);
      active := None;
      Log(Completed(pair, authId));
    }

    method GoBack(previous: Serving, pair: Pair, cause: Option<string>, authId: Hash) returns (error: Option<Error>)
      modifies this
      ensures error.Some? ==> RestoreOp(old(View()), previous, pair, cause, authId) == Raise(error.value)
      ensures error.None? ==>
                RestoreOp(old(View()), previous, pair, cause, authId).Commit?
                && View() == RestoreOp(old(View()), previous, pair, cause, authId).next
    {
      stable := Some(previous);
      if cause.None? {
        return Some(OtherError);
      }
      failed := Last(failed + [Failure(pair, cause.value)], HISTORY);
      active := None;
      Log(RolledBack(previous.pair, authId));
      return None;
    }

    /** Position of the first pending item of this version; the length when there is none. */
    method Locate(version: nat) returns (i: nat)
      ensures i == FindVersion(pending, version)
    {
      i := 0;
      assert pending[0..] == pending;
      while i < |pending| && pending[i].event.version != version
        invariant i <= |pending| && FindVersion(pending, version) == i + FindVersion(pending[i..], version)
      {
        assert pending[i..][1..] == pending[i + 1..];
        i := i + 1;
      }
    }

    method Settle(snapshot: Item, r: Resolution)
      modifies this
      ensures ResolveOp(old(View()), snapshot, r).Commit?
      ensures View() == ResolveOp(old(View()), snapshot, r).next
    {
      var i := FindEvent(pending, snapshot.event);
      if i == |pending| || pending[i] != snapshot {
        return;
      }
      pending := pending[i := Apply(snapshot, r)];
      Log(Resolution(pending[i].status, snapshot.event.version));
    }

    method Retry(version: nat, now: Time) returns (error: Option<Error>)
      modifies this
      ensures error.Some? ==> RecoverOp(old(View()), version, now) == Raise(error.value)
      ensures error.None? ==>
                RecoverOp(old(View()), version, now).Commit? && View() == RecoverOp(old(View()), version, now).next
    {
      if |WithVersion(pending, version)| != 1 {
        return Some(ValueError);
      }
      var i := Locate(version);
      if i == |pending| || pending[i].status != ResolutionBlocked {
        return Some(ValueError);
      }
      pending := pending[i := pending[i].(status := ResolutionRetry, attempts := 0, nextAttempt := now, error := None)];
      Log(Recovered(version));
      return None;
    }

    method Approve(expected: Evidence, now: Time) returns (error: Option<Error>)
      modifies this
      ensures error.Some? ==> AuthorizeOp(old(View()), expected, now) == Raise(error.value)
      ensures error.None? ==>
                AuthorizeOp(old(View()), expected, now).Commit?
                && View() == AuthorizeOp(old(View()), expected, now).next
    {
      var version := expected.basis.candidate.serving.pair.version;
      if Snapshot(View(), version) != Some(expected.basis) {
        return Some(ValueError);
      }
      var i := Locate(version);
      if i == |pending| {
        return Some(ValueError);
      }
      var previous := pending[i].auth;
      if previous.Some? {
        if previous.value.evidence == expected {
          return if Claimable(View(), pending[i], now) then None else Some(ValueError);
        }
        if !MayReplace(previous.value, expected, now) {
          return Some(ValueError);
        }
      } else if expected.supersedes.Some? {
        return Some(ValueError);
      }
      var auth := Auth(expected, Of(expected), now, now + TTL);
      if !ValidAuth(auth, CandidateOf(pending[i])) {
        return Some(ValueError);
      }
      pending := pending[i := pending[i].(status := ApprovedForRelease, auth := Some(auth))];
      Log(Authorized(version, auth.hash, if previous.Some? then Some(previous.value.hash) else None));
      return None;
    }

    method Install(serving: Serving, verified: bool) returns (error: Option<Error>)
      modifies this
      ensures error.Some? ==> BootstrapOp(old(View()), serving, verified) == Raise(error.value)
      ensures error.None? ==>
                BootstrapOp(old(View()), serving, verified).Commit?
                && View() == BootstrapOp(old(View()), serving, verified).next
    {
      if active.Some? || pending != [] || lease.Some? || route.weight != 0 {
        return Some(ValueError);
      }
      var existing := stable.Some?;
      if existing && stable.value != serving {
        return Some(ValueError);
      }
      if highest > serving.pair.version || !verified {
        return Some(ValueError);
      }
      if existing {
        return None;
      }
      stable := Some(serving);
      highest := serving.pair.version;
      Log(Bootstrapped(serving));
      return None;
    }

    /** Runs any closure; on an error the draft is thrown away by the store. */
    method Run(op: Op) returns (error: Option<Error>)
      modifies this
      ensures error.Some? ==> Mutate(old(View()), op) == Raise(error.value)
      ensures error.None? ==> Mutate(old(View()), op).Commit? && View() == Mutate(old(View()), op).next
    {
      hide ClaimOp;
      hide BeginRollbackOp;
      hide PromoteOp;
      hide CommitStableOp;
      hide CompleteOp;
      hide RestoreOp;
      hide IngestOp;
      hide ResolveOp;
      hide RecoverOp;
      hide AuthorizeOp;
      hide BootstrapOp;
      hide Audit;
      hide SetRoute;
      hide LeaseTaken;
      error := None;
      match op {
        case Acquire(owner, check, until) =>
          if !LeaseTaken(View(), owner, check) {
            lease := Some(Lease(owner, until));
          }
        case Claim(check, deadline) => StartRelease(check, deadline);
        case BeginRollback(reason, deadline) => error := RollBack(reason, deadline);
        case Arm(deadline) =>
          if active.None? {
            return Some(OtherError);
          }
          active := Some(active.value.(phase := Ramp, stageSince := None, deadline := deadline));
          Steer(10);
        case MarkStage(since) =>
          if active.None? {
            return Some(OtherError);
          }
          active := Some(active.value.(stageSince := Some(since)));
        case Promote(weight, deadline) => error := Advance(weight, deadline);
        case CommitStable(target, deadline) => error := Finalize(target, deadline);
        case Complete(pair, authId) => Finish(pair, authId);
        case ForceZero => Steer(0);
        case Restore(previous, pair, cause, authId) => error := GoBack(previous, pair, cause, authId);
        case Block =>
          if active.None? {
            return Some(OtherError);
          }
          active := Some(active.value.(phase := Blocked));
        case Ingest(event) =>
          var result: IngestResult;
          error, result := Accept(event);
        case Resolve(snapshot, result) => Settle(snapshot, result);
        case Recover(version, now) => error := Retry(version, now);
        case Authorize(expected, now) => error := Approve(expected, now);
        case Bootstrap(serving, verified) => error := Install(serving, verified);
      }
    }
  }
}
