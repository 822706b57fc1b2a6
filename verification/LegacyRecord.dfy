/** The copied legacy record that a closure changes in place. */
module LegacyRecord {
  import opened Bounded
  import opened ReleaseState
  import opened Legacy

  class Draft {
    var stable: Image
    var active: Option<Release>
    var pending: seq<Image>
    var processed: seq<Digest>
    var failed: seq<Fault>
    var route: Route
    var lease: Option<Lease>

    function View(): Record
      reads this
    {
      Record(stable, active, pending, processed, failed, route, lease)
    }

    constructor (s: Record)
      ensures View() == s
    {
      stable, active, pending, processed := s.stable, s.active, s.pending, s.processed;
      failed, route, lease := s.failed, s.route, s.lease;
    }

    method Turn(weight: nat)
      modifies this`route
      ensures View() == Steer(old(View()), weight)
    {
      if route.weight != weight {
        route := Route(weight, route.revision + 1);
      }
    }

    /** The digests that ingestion treats as already handled. */
    method IsKnown(digest: Digest) returns (known: bool)
      ensures known == Known(View(), digest)
    {
      if digest in processed || stable.digest == digest || (active.Some? && active.value.image.digest == digest) {
        return true;
      }
      for i := 0 to |failed|
        invariant forall k :: 0 <= k < i ==> failed[k].image.digest != digest
      {
        if failed[i].image.digest == digest {
          return true;
        }
      }
      known := IsPending(digest);
    }

    method IsPending(digest: Digest) returns (found: bool)
      ensures found <==> exists c :: c in pending && c.digest == digest
    {
      for i := 0 to |pending|
        invariant forall k :: 0 <= k < i ==> pending[k].digest != digest
      {
        if pending[i].digest == digest {
          return true;
        }
      }
      return false;
    }

    method Add(candidate: Option<Image>) returns (ok: bool)
      modifies this`pending
      ensures !ok ==> IngestOp(old(View()), candidate).Raise?
      ensures ok ==> IngestOp(old(View()), candidate) == Commit(View())
    {
      if candidate.None? {
        return true;
      }
      var c := candidate.value;
      var known := IsKnown(c.digest);
      hide Known;
      if known || c.version < stable.version || NotNewer(View(), c.version, c.time) {
        return true;
      }
      if |pending| >= MAX_PENDING {
        return false;
      }
      pending := pending + [c];
      return true;
    }

    /** The last matching failure, searched from the newest. */
    method FindFailure(digest: Digest, version: nat) returns (r: Option<Fault>)
      ensures r == LastFailure(failed, digest, version)
    {
      var n := |failed|;
      assert failed[..n] == failed;
      while n > 0
        invariant n <= |failed| && LastFailure(failed, digest, version) == LastFailure(failed[..n], digest, version)
      {
        assert failed[..n][..n - 1] == failed[..n - 1];
        n := n - 1;
        if failed[n].image.digest == digest && failed[n].image.version == version {
          return Some(failed[n]);
        }
      }
      return None;
    }

    method Requeue(digest: Digest, version: nat) returns (ok: bool)
      modifies this`pending
      ensures !ok ==> RetryOp(old(View()), digest, version).Raise?
      ensures ok ==> RetryOp(old(View()), digest, version) == Commit(View())
    {
      if active.Some? {
        return false;
      }
      var queued := IsPending(digest);
      var previous := FindFailure(digest, version);
      hide LastFailure;
      if queued || previous.None? || digest == stable.digest || digest in processed {
        return false;
      }
      var time := previous.value.image.time;
      if version < stable.version || NotNewer(View(), version, time) || |pending| >= MAX_PENDING {
        return false;
      }
      pending := pending + [Image(version, digest, time)];
      return true;
    }

    /** Keeps only the eligible candidates, and starts a release of the greatest. */
    method Claim(deadline: Time)
      modifies this
      ensures Commit(View()) == ClaimOp(old(View()), deadline)
    {
      hide EligibleOf;
      hide Without;
      var eligible := EligibleOf(stable, pending);
      pending := eligible;
      if eligible == [] {
        return;
      }
      var candidate := eligible[0];
      for i := 1 to |eligible|
        modifies {}
        invariant candidate == Greatest(eligible[..i])
      {
        GreatestOfMore(eligible[..i], eligible[i]);
        assert eligible[..i + 1] == eligible[..i] + [eligible[i]];
        if !NoNewer(eligible[i], candidate) {
          candidate := eligible[i];
        }
      }
      assert eligible[..|eligible|] == eligible;
      pending := Without(eligible, candidate);
      active := Some(Release(candidate, stable, Preparing, None, deadline, None, false));
      Turn(0);
    }

    method RollBack(reason: string, deadline: Time)
      modifies this
      ensures Commit(View()) == BeginRollbackOp(old(View()), reason, deadline)
    {
      if active.None? || !RollsBack(active.value.phase) {
        return;
      }
      var previous := active.value.phase;
      active := Some(active.value.(phase := Rollback, reason := Some(reason), deadline := deadline,
                                   restoreStable := previous == Finalizing));
      if previous != Finalizing {
        Turn(0);
      }
    }

    /** The updates of a running release. */
    method Proceed(op: Op) returns (ok: bool)
      requires op.Arm? || op.MarkStage? || op.Advance? || op.EnterFinalizing? || op.Finalize? || op.Restored?
               || op.Block?
      modifies this
      ensures !ok ==> OnRelease(old(View()), op).Raise?
      ensures ok ==> OnRelease(old(View()), op) == Commit(View())
    {
      if active.None? {
        return false;
      }
      match op {
        case Arm(d) =>
          active := Some(active.value.(phase := Ramp, stageSince := None, deadline := d));
          Turn(10);
        case MarkStage(since) => active := Some(active.value.(stageSince := Some(since)));
        case Advance(weight, d) =>
          Turn(NextWeight(weight));
          active := Some(active.value.(stageSince := None, deadline := d));
        case EnterFinalizing(d) => active := Some(active.value.(phase := Finalizing, deadline := d));
        case Finalize(image, d) =>
          stable := image;
          Turn(0);
          active := Some(active.value.(phase := Draining, deadline := d));
        case Restored =>
          Turn(0);
          active := Some(active.value.(restoreStable := false));
        case Block => active := Some(active.value.(phase := Blocked));
      }
      return true;
    }

    /** Any closure; one that raises is thrown away with its draft. */
    method Run(op: Op) returns (ok: bool)
      modifies this
      ensures !ok ==> Mutate(old(View()), op).Raise?
      ensures ok ==> Mutate(old(View()), op) == Commit(View())
    {
      hide EligibleOf;
      hide Decide;
      ok := true;
      match op {
        case Acquire(owner, check, until) =>
          if lease.None? || lease.value.owner == owner || lease.value.until <= check {
            lease := Some(Lease(owner, until));
          }
        case Claim(d) => Claim(d);
        case BeginRollback(reason, d) => RollBack(reason, d);
        case Complete(digest) =>
          processed := Last(processed + [digest], HISTORY);
          active := None;
        case ForceZero => Turn(0);
        case CompleteRollback(image, cause) =>
          if cause.None? {
            return false;
          }
          failed := Last(failed + [Fault(image, cause.value)], HISTORY);
          active := None;
        case Ingest(candidate) => ok := Add(candidate);
        case Retry(digest, version) => ok := Requeue(digest, version);
        case _ => ok := Proceed(op);
      }
    }
  }

  /** The first greatest of a longer list is the old one unless the new element is strictly newer. */
  lemma {:induction false} GreatestOfMore(cs: seq<Image>, c: Image)
    requires cs != []
    ensures Greatest(cs + [c]) == if NoNewer(c, Greatest(cs)) then Greatest(cs) else c
  {
    if |cs| == 1 {
      assert (cs + [c])[1..] == [c];
    } else {
      assert (cs + [c])[1..] == cs[1..] + [c];
      GreatestOfMore(cs[1..], c);
    }
  }
}
