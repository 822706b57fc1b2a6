/**
 * The legacy single-digest controller. Its rollback keeps traffic on the
 * canary until the stable lane has been restored, so it has a traffic safety
 * argument of its own. Records, closures and their invariants are here;
 * module LegacyCluster interleaves controllers and other writers.
 */
module Legacy {
  import opened Bounded
  import opened ReleaseState

  datatype Image = Image(version: nat, digest: Digest, time: Time)
  datatype Release = Release(image: Image, previous: Image, phase: Phase, reason: Option<string>, deadline: Time,
                             stageSince: Option<Time>, restoreStable: bool)
  datatype Fault = Fault(image: Image, reason: string)

  /** The audit list is left out: nothing reads it back. */
  datatype Record = Record(stable: Image, active: Option<Release>, pending: seq<Image>, processed: seq<Digest>,
                           failed: seq<Fault>, route: Route, lease: Option<Lease>)

  datatype Op =
    | Acquire(owner: Owner, check: Time, until: Time)
    | Claim(deadline: Time)
    | BeginRollback(reason: string, deadline: Time)
    | Arm(deadline: Time)
    | MarkStage(since: Time)
    | Advance(weight: nat, deadline: Time)
    | EnterFinalizing(deadline: Time)
    | Finalize(image: Image, deadline: Time)
    | Complete(digest: Digest)
    | Restored
    | ForceZero
    | CompleteRollback(image: Image, cause: Option<string>)
    | Block
    | Ingest(candidate: Option<Image>)
    | Retry(digest: Digest, version: nat)

  datatype Outcome = Commit(next: Record) | Raise

  datatype Verdict = Queued | Seen | Outdated | OutdatedRebuild | Malformed

  function Initial(base: Image): Record {
    Record(base, None, [], [base.digest], [], Route(0, 0), None)
  }

  function Steer(s: Record, weight: nat): Record {
    if s.route.weight != weight then s.(route := Route(weight, s.route.revision + 1)) else s
  }

  // ----- ingestion and retry -----------------------------------------------------------

  predicate Known(s: Record, digest: Digest) {
    || digest in s.processed
    || (exists f :: f in s.failed && f.image.digest == digest)
    || (exists c :: c in s.pending && c.digest == digest)
    || s.stable.digest == digest
    || (s.active.Some? && s.active.value.image.digest == digest)
  }

  /** Not newer than an ordered stable of the same version. */
  predicate NotNewer(s: Record, version: nat, time: Time) {
    version == s.stable.version && s.stable.time > 0.0 && time <= s.stable.time
  }

  function Decide(s: Record, candidate: Option<Image>): Verdict {
    match candidate
    case None => Malformed
    case Some(c) =>
      if Known(s, c.digest) then Seen
      else if c.version < s.stable.version then Outdated
      else if NotNewer(s, c.version, c.time) then OutdatedRebuild
      else Queued
  }

  function IngestOp(s: Record, candidate: Option<Image>): Outcome {
    if !Decide(s, candidate).Queued? then Commit(s)
    else if |s.pending| >= MAX_PENDING then Raise
    else Commit(s.(pending := s.pending + [candidate.value]))
  }

  /** The last failure of this digest and version, if any. */
  function LastFailure(failed: seq<Fault>, digest: Digest, version: nat): (r: Option<Fault>)
    ensures r.Some? ==> r.value in failed
  {
    if failed == [] then None
    else
      var f := failed[|failed| - 1];
      if f.image.digest == digest && f.image.version == version then Some(f)
      else LastFailure(failed[..|failed| - 1], digest, version)
  }

  function RetryOp(s: Record, digest: Digest, version: nat): Outcome {
    var previous := LastFailure(s.failed, digest, version);
    if s.active.Some? || (exists c :: c in s.pending && c.digest == digest) || previous.None? then Raise
    else if digest == s.stable.digest || digest in s.processed then Raise
    else
      var time := previous.value.image.time;
      if version < s.stable.version || NotNewer(s, version, time) || |s.pending| >= MAX_PENDING then Raise
      else Commit(s.(pending := s.pending + [Image(version, digest, time)]))
  }

  // ----- claims --------------------------------------------------------------------------

  predicate Eligible(stable: Image, c: Image) {
    && c.digest != stable.digest
    && (c.version > stable.version
        || (c.version == stable.version && (stable.time == 0.0 || c.time > stable.time)))
  }

  function EligibleOf(stable: Image, pending: seq<Image>): (r: seq<Image>)
    ensures forall c :: c in r <==> c in pending && Eligible(stable, c)
    ensures |r| <= |pending|
  {
    if pending == [] then []
    else (if Eligible(stable, pending[0]) then [pending[0]] else []) + EligibleOf(stable, pending[1..])
  }

  /** Lexicographic order on (version, time). */
  predicate NoNewer(a: Image, b: Image) {
    a.version < b.version || (a.version == b.version && a.time <= b.time)
  }

  /** The first of the greatest candidates. */
  function Greatest(cs: seq<Image>): (r: Image)
    requires cs != []
    ensures r in cs && forall c :: c in cs ==> NoNewer(c, r)
  {
    if |cs| == 1 then cs[0]
    else
      var rest := Greatest(cs[1..]);
      assert forall c :: c in cs ==> c == cs[0] || c in cs[1..];
      if NoNewer(rest, cs[0]) then cs[0] else rest
  }

  function Without(cs: seq<Image>, c: Image): (r: seq<Image>)
    ensures forall x :: x in r ==> x in cs
    ensures |r| <= |cs|
  {
    if cs == [] then [] else if cs[0] == c then cs[1..] else [cs[0]] + Without(cs[1..], c)
  }

  function ClaimOp(s: Record, deadline: Time): Outcome {
    var eligible := EligibleOf(s.stable, s.pending);
    if eligible == [] then Commit(s.(pending := []))
    else
      var c := Greatest(eligible);
      Commit(Steer(s.(pending := Without(eligible, c),
                      active := Some(Release(c, s.stable, Preparing, None, deadline, None, false))), 0))
  }

  // ----- the other closures ------------------------------------------------------------

  predicate RollsBack(phase: Phase) {
    phase in {Preparing, Ramp, Finalizing}
  }

  function BeginRollbackOp(s: Record, reason: string, deadline: Time): Outcome {
    if s.active.None? || !RollsBack(s.active.value.phase) then Commit(s)
    else
      var a := s.active.value;
      var restore := a.phase == Finalizing;
      var s1 := s.(active := Some(a.(phase := Rollback, reason := Some(reason), deadline := deadline,
                                     restoreStable := restore)));
      Commit(if restore then s1 else Steer(s1, 0))
  }

  function NextWeight(weight: nat): nat {
    if weight == 10 then 25 else if weight == 25 then 50 else 100
  }

  /** Closures that update the release in place; they raise when there is none. */
  function OnRelease(s: Record, op: Op): Outcome
    requires op.Arm? || op.MarkStage? || op.Advance? || op.EnterFinalizing? || op.Finalize? || op.Restored? || op.Block?
  {
    if s.active.None? then Raise
    else
      var a := s.active.value;
      match op
      case Arm(d) => Commit(Steer(s.(active := Some(a.(phase := Ramp, stageSince := None, deadline := d))), 10))
      case MarkStage(since) => Commit(s.(active := Some(a.(stageSince := Some(since)))))
      case Advance(weight, d) =>
        Commit(Steer(s, NextWeight(weight)).(active := Some(a.(stageSince := None, deadline := d))))
      case EnterFinalizing(d) => Commit(s.(active := Some(a.(phase := Finalizing, deadline := d))))
      case Finalize(image, d) =>
        Commit(Steer(s.(stable := image, active := Some(a.(phase := Draining, deadline := d))), 0))
      case Restored => Commit(Steer(s, 0).(active := Some(a.(restoreStable := false))))
      case Block => Commit(s.(active := Some(a.(phase := Blocked))))
  }

  function Mutate(s: Record, op: Op): Outcome {
    match op
    case Acquire(owner, check, until) =>
      Commit(if s.lease.Some? && s.lease.value.owner != owner && s.lease.value.until > check then s
             else s.(lease := Some(Lease(owner, until))))
    case Claim(d) => ClaimOp(s, d)
    case BeginRollback(reason, d) => BeginRollbackOp(s, reason, d)
    case Complete(digest) => Commit(s.(processed := Last(s.processed + [digest], HISTORY), active := None))
    case ForceZero => Commit(Steer(s, 0))
    case CompleteRollback(image, reason) =>
      if reason.None? then Raise
      else Commit(s.(failed := Last(s.failed + [Fault(image, reason.value)], HISTORY), active := None))
    case Ingest(candidate) => IngestOp(s, candidate)
    case Retry(digest, version) => RetryOp(s, digest, version)
    case _ => OnRelease(s, op)
  }

  predicate ByController(op: Op) {
    !op.Acquire? && !op.Ingest? && !op.Retry?
  }

  // ----- the record invariant ----------------------------------------------------------

  predicate InPhase(s: Record, phase: Phase) {
    s.active.Some? && s.active.value.phase == phase
  }

  /** The canary serves all traffic, so the stable lane may be rewritten. */
  predicate StableIdle(s: Record) {
    InPhase(s, Finalizing) || (InPhase(s, Rollback) && s.active.value.restoreStable)
  }

  /** Weight, phase and stable agree; in a rollback from FINALIZING traffic stays on the canary until restored. */
  predicate PhaseOk(s: Record) {
    match s.active
    case None => s.route.weight == 0
    case Some(a) =>
      && (a.reason.Some? <==> a.phase in {Rollback, Blocked})
      && s.stable == (if a.phase == Draining then a.image else a.previous)
      && match a.phase
         case Preparing => s.route.weight == 0
         case Ramp => IsStage(s.route.weight)
         case Finalizing => s.route.weight == 100
         case Draining => s.route.weight == 0
         case Rollback => s.route.weight == if a.restoreStable then 100 else 0
         case Blocked => s.route.weight == 100 && a.restoreStable
  }

  /** No timestamp is before the epoch. */
  predicate TimesOk(s: Record) {
    && s.stable.time >= 0.0
    && (forall c :: c in s.pending ==> c.time >= 0.0)
    && (forall f :: f in s.failed ==> f.image.time >= 0.0)
    && (s.active.Some? ==> s.active.value.image.time >= 0.0 && NoNewer(s.active.value.previous, s.active.value.image))
  }

  predicate Fits(s: Record, op: Op) {
    match op
    case Claim(_) => s.active.None?
    case Arm(_) => InPhase(s, Preparing)
    case MarkStage(_) => InPhase(s, Ramp)
    case Advance(weight, _) => InPhase(s, Ramp) && s.route.weight == weight < 100
    case EnterFinalizing(_) => InPhase(s, Ramp) && s.route.weight == 100
    case Finalize(image, _) => InPhase(s, Finalizing) && image == s.active.value.image
    case Complete(digest) => InPhase(s, Draining) && digest == s.active.value.image.digest
    case Restored => InPhase(s, Rollback) && s.active.value.restoreStable
    case Block => InPhase(s, Rollback) && s.active.value.restoreStable
    case ForceZero => InPhase(s, Rollback) && !s.active.value.restoreStable
    case CompleteRollback(image, reason) =>
      InPhase(s, Rollback) && !s.active.value.restoreStable && image == s.active.value.image
      && reason == s.active.value.reason
    case _ => true
  }

  /**
   * What every closure of the release does to a record that it fits: a new stage
   * starts unmarked, every phase but a blocked or zeroed rollback gets a fresh
   * deadline, every change of weight a fresh revision, and an ended release is
   * recorded once, with its own image.
   */
  lemma FittingExactly(s: Record, op: Op)
    requires PhaseOk(s) && Fits(s, op) && s.active.Some? && ByController(op)
    ensures var a, r := s.active.value, s.route.revision;
            Mutate(s, op) ==
            match op
            case Arm(d) =>
              Commit(s.(route := Route(10, r + 1),
                        active := Some(a.(phase := Ramp, stageSince := None, deadline := d))))
            case MarkStage(since) => Commit(s.(active := Some(a.(stageSince := Some(since)))))
            case Advance(_, d) =>
              var next := if s.route.weight == 10 then 25 else if s.route.weight == 25 then 50 else 100;
              Commit(s.(route := Route(next, r + 1), active := Some(a.(stageSince := None, deadline := d))))
            case EnterFinalizing(d) => Commit(s.(active := Some(a.(phase := Finalizing, deadline := d))))
            case Finalize(_, d) =>
              Commit(s.(stable := a.image, route := Route(0, r + 1),
                        active := Some(a.(phase := Draining, deadline := d))))
            case Complete(_) => Commit(s.(processed := Last(s.processed + [a.image.digest], 100), active := None))
            case BeginRollback(reason, d) =>
              if a.phase in {Draining, Rollback, Blocked} then Commit(s)
              else
                var back := a.(phase := Rollback, reason := Some(reason), deadline := d,
                               restoreStable := a.phase == Finalizing);
                Commit(s.(active := Some(back),
                          route := if a.phase == Ramp then Route(0, r + 1) else s.route))
            case Restored => Commit(s.(route := Route(0, r + 1), active := Some(a.(restoreStable := false))))
            case ForceZero => Commit(s)
            case CompleteRollback(_, _) =>
              Commit(s.(failed := Last(s.failed + [Fault(a.image, a.reason.value)], 100), active := None))
            case Block => Commit(s.(active := Some(a.(phase := Blocked))))
            case _ => Mutate(s, op)
  {
  }

  lemma FittingKeepsPhase(s: Record, op: Op)
    requires PhaseOk(s) && Fits(s, op) && Mutate(s, op).Commit?
    ensures PhaseOk(Mutate(s, op).next)
  {
    hide Decide;
    hide EligibleOf;
    hide Greatest;
    hide Without;
  }

  lemma FittingKeepsTimes(s: Record, op: Op)
    requires PhaseOk(s) && TimesOk(s) && Fits(s, op) && Mutate(s, op).Commit?
    requires op.Ingest? && op.candidate.Some? ==> op.candidate.value.time >= 0.0
    ensures TimesOk(Mutate(s, op).next)
    ensures NoNewer(s.stable, Mutate(s, op).next.stable)
  {
    if op.Claim? {
      ClaimKeepsTimes(s, op.deadline);
    } else if op.Ingest? || op.Retry? {
      QueueKeepsTimes(s, op);
    } else {
      OthersKeepTimes(s, op);
    }
    hide Mutate;
    hide TimesOk;
  }

  lemma ClaimKeepsTimes(s: Record, deadline: Time)
    requires TimesOk(s)
    ensures TimesOk(ClaimOp(s, deadline).next) && ClaimOp(s, deadline).next.stable == s.stable
  {
    if EligibleOf(s.stable, s.pending) != [] {
      ClaimedIsEligible(s, deadline);
      hide ClaimOp;
    }
  }

  lemma QueueKeepsTimes(s: Record, op: Op)
    requires TimesOk(s) && (op.Ingest? || op.Retry?) && Mutate(s, op).Commit?
    requires op.Ingest? && op.candidate.Some? ==> op.candidate.value.time >= 0.0
    ensures TimesOk(Mutate(s, op).next) && Mutate(s, op).next.stable == s.stable
  {
    hide Known;
    hide NotNewer;
    assert Mutate(s, op) == if op.Ingest? then IngestOp(s, op.candidate) else RetryOp(s, op.digest, op.version);
  }

  lemma OthersKeepTimes(s: Record, op: Op)
    requires PhaseOk(s) && TimesOk(s) && Fits(s, op) && Mutate(s, op).Commit?
    requires !op.Claim? && !op.Ingest? && !op.Retry?
    ensures TimesOk(Mutate(s, op).next)
    ensures NoNewer(s.stable, Mutate(s, op).next.stable)
  {
    assert forall f :: f in Mutate(s, op).next.failed ==>
             f in s.failed || (s.active.Some? && f.image == s.active.value.image);
  }

  lemma ClaimedIsEligible(s: Record, deadline: Time)
    requires EligibleOf(s.stable, s.pending) != []
    ensures var next := ClaimOp(s, deadline).next;
            && next.active.Some? && next.active.value.image in s.pending
            && Eligible(s.stable, next.active.value.image)
            && (forall c :: c in s.pending && Eligible(s.stable, c) ==> NoNewer(c, next.active.value.image))
            && next.active.value.previous == s.stable == next.stable && next.failed == s.failed
            && (forall c :: c in next.pending ==> c in s.pending)
  {
  }

  // ----- the queue -----------------------------------------------------------------------

  ghost predicate Distinct(cs: seq<Image>) {
    forall i, j :: 0 <= i < j < |cs| ==> cs[i].digest != cs[j].digest
  }

  /** Nothing is queued twice, nor while it is stable, being released or among the processed ones. */
  ghost predicate QueueOk(s: Record) {
    && Distinct(s.pending)
    && (forall c :: c in s.pending ==>
          && c.digest != s.stable.digest && c.digest !in s.processed
          && (s.active.Some? ==> c.digest != s.active.value.image.digest))
  }

  /**
   * An image is queued exactly when its digest is new to the whole record and
   * it is newer than stable: by version, or by time unless stable has none.
   */
  lemma IngestExactly(s: Record, c: Image)
    ensures var news :=
              && c.digest != s.stable.digest && c.digest !in s.processed
              && (s.active.Some? ==> c.digest != s.active.value.image.digest)
              && (forall i :: 0 <= i < |s.pending| ==> s.pending[i].digest != c.digest)
              && (forall i :: 0 <= i < |s.failed| ==> s.failed[i].image.digest != c.digest)
              && (c.version > s.stable.version
                  || (c.version == s.stable.version && (s.stable.time <= 0.0 || c.time > s.stable.time)));
            Mutate(s, Ingest(Some(c)))
            == if !news then Commit(s)
               else if |s.pending| >= 20 then Raise
               else Commit(s.(pending := s.pending + [c]))
    ensures Mutate(s, Ingest(None)) == Commit(s)
  {
    assert forall i :: 0 <= i < |s.pending| ==> s.pending[i] in s.pending;
    assert forall i :: 0 <= i < |s.failed| ==> s.failed[i] in s.failed;
  }

  /** The latest failure of this digest under this version. */
  ghost predicate FailedAt(failed: seq<Fault>, digest: Digest, version: nat, i: int) {
    && 0 <= i < |failed| && failed[i].image.digest == digest && failed[i].image.version == version
    && forall j :: i < j < |failed| && failed[j].image.digest == digest ==> failed[j].image.version != version
  }

  lemma {:induction false} LastFailureExactly(failed: seq<Fault>, digest: Digest, version: nat)
    ensures forall i :: FailedAt(failed, digest, version, i) ==>
              LastFailure(failed, digest, version) == Some(failed[i])
    ensures LastFailure(failed, digest, version).Some? ==> exists i :: FailedAt(failed, digest, version, i)
  {
    if failed != [] {
      var n := |failed| - 1;
      LastFailureExactly(failed[..n], digest, version);
      if failed[n].image.digest == digest && failed[n].image.version == version {
        assert FailedAt(failed, digest, version, n);
      } else {
        forall i | 0 <= i < n
          ensures FailedAt(failed, digest, version, i) <==> FailedAt(failed[..n], digest, version, i)
        {
        }
      }
    }
  }

  /**
   * An operator's retry queues the image of the latest failure, exactly when no
   * release runs, the digest is not queued, stable or processed, the image is
   * newer than stable, and the queue has room.
   */
  lemma RetryExactly(s: Record, digest: Digest, version: nat)
    ensures (forall i :: !FailedAt(s.failed, digest, version, i)) ==> Mutate(s, Retry(digest, version)) == Raise
    ensures forall i :: FailedAt(s.failed, digest, version, i) ==>
              var image := Image(version, digest, s.failed[i].image.time);
              Mutate(s, Retry(digest, version))
              == if && s.active.None? && |s.pending| < 20
                    && digest != s.stable.digest && digest !in s.processed
                    && (forall k :: 0 <= k < |s.pending| ==> s.pending[k].digest != digest)
                    && (version > s.stable.version
                        || (version == s.stable.version && (s.stable.time <= 0.0 || image.time > s.stable.time)))
                 then Commit(s.(pending := s.pending + [image])) else Raise
  {
    LastFailureExactly(s.failed, digest, version);
    hide LastFailure;
    hide FailedAt;
    assert forall k :: 0 <= k < |s.pending| ==> s.pending[k] in s.pending;
  }

  lemma {:induction false} EligibleDistinct(stable: Image, cs: seq<Image>)
    requires Distinct(cs)
    ensures Distinct(EligibleOf(stable, cs))
  {
    hide Eligible;
    if cs != [] {
      EligibleDistinct(stable, cs[1..]);
      var rest := EligibleOf(stable, cs[1..]);
      forall k | 0 <= k < |rest|
        ensures rest[k].digest != cs[0].digest
      {
        assert rest[k] in cs[1..];
      }
      assert [] + rest == rest;
    }
  }

  lemma {:induction false} WithoutExactly(cs: seq<Image>, c: Image)
    requires c in cs && Distinct(cs)
    ensures Distinct(Without(cs, c))
    ensures forall x :: x in Without(cs, c) <==> x in cs && x.digest != c.digest
  {
    if cs[0] != c {
      WithoutExactly(cs[1..], c);
    }
  }

  /** What a claim may take: of a later version than stable, or a later build of the same one. */
  predicate Follows(c: Image, stable: Image) {
    c.version > stable.version || (c.version == stable.version && (stable.time == 0.0 || c.time > stable.time))
  }

  /**
   * A claim takes a greatest image that follows stable, by version and then by
   * time, keeps exactly the others that do, and starts nothing if there is none.
   */
  lemma ClaimExactly(s: Record, deadline: Time)
    requires QueueOk(s)
    ensures var next := ClaimOp(s, deadline).next;
            if forall c :: c in s.pending ==> !Follows(c, s.stable) then next == s.(pending := [])
            else exists c :: Claimed(s, c, deadline, next)
  {
    var eligible := EligibleOf(s.stable, s.pending);
    EligibleDistinct(s.stable, s.pending);
    hide Distinct;
    hide EligibleOf;
    if eligible != [] {
      var c := Greatest(eligible);
      WithoutExactly(eligible, c);
      hide Greatest;
      hide Without;
      assert Claimed(s, c, deadline, ClaimOp(s, deadline).next);
    }
  }

  ghost predicate Claimed(s: Record, c: Image, deadline: Time, next: Record) {
    && c in s.pending && Follows(c, s.stable)
    && (forall x :: x in s.pending && Follows(x, s.stable) ==>
          x.version < c.version || (x.version == c.version && x.time <= c.time))
    && (forall x :: x in next.pending <==> x in s.pending && Follows(x, s.stable) && x.digest != c.digest)
    && Distinct(next.pending)
    && next == Steer(s.(pending := next.pending,
                        active := Some(Release(c, s.stable, Preparing, None, deadline, None, false))), 0)
  }

  /** Every closure keeps the queue in order, whoever commits it. */
  lemma FittingKeepsQueue(s: Record, op: Op)
    requires PhaseOk(s) && QueueOk(s) && Fits(s, op) && Mutate(s, op).Commit?
    ensures QueueOk(Mutate(s, op).next)
  {
    if op.Claim? {
      ClaimKeepsQueue(s, op.deadline);
    } else if op.Ingest? || op.Retry? {
      ArrivalKeepsQueue(s, op);
    } else {
      OthersKeepQueue(s, op);
    }
    hide Mutate;
    hide QueueOk;
  }

  lemma ClaimKeepsQueue(s: Record, deadline: Time)
    requires QueueOk(s)
    ensures QueueOk(ClaimOp(s, deadline).next)
  {
    ClaimExactly(s, deadline);
    hide ClaimOp;
    hide Follows;
  }

  lemma ArrivalKeepsQueue(s: Record, op: Op)
    requires QueueOk(s) && (op.Ingest? || op.Retry?) && Mutate(s, op).Commit?
    ensures QueueOk(Mutate(s, op).next)
  {
    if op.Retry? {
      RetryExactly(s, op.digest, op.version);
    } else if op.candidate.Some? {
      IngestExactly(s, op.candidate.value);
    } else {
      IngestExactly(s, s.stable);
    }
    hide Mutate;
  }

  lemma OthersKeepQueue(s: Record, op: Op)
    requires PhaseOk(s) && QueueOk(s) && Fits(s, op) && Mutate(s, op).Commit?
    requires !op.Claim? && !op.Ingest? && !op.Retry?
    ensures QueueOk(Mutate(s, op).next)
  {
  }

  /** A rebuild of an unordered stable, dated before the epoch. */
  predicate EarlyRebuild(stable: Image, c: Image) {
    c.version == stable.version && stable.time == 0.0 && c.time < 0.0
  }

  /**
   * A claim takes a greatest eligible candidate. It never goes back in
   * (version, time) exactly unless stable is unordered (time 0), the candidate
   * has the same version and its time lies before the epoch.
   */
  lemma ClaimRegressesExactly(s: Record, deadline: Time)
    requires EligibleOf(s.stable, s.pending) != []
    ensures var c := ClaimOp(s, deadline).next.active.value.image;
            NoNewer(s.stable, c) <==> !EarlyRebuild(s.stable, c)
  {
    ClaimedIsEligible(s, deadline);
  }

  /** The running release was eligible against the stable image it started from. */
  predicate ClaimedOk(s: Record) {
    s.active.Some? ==> Eligible(s.active.value.previous, s.active.value.image)
  }

  lemma FittingKeepsClaimed(s: Record, op: Op)
    requires PhaseOk(s) && ClaimedOk(s) && Fits(s, op) && Mutate(s, op).Commit?
    ensures ClaimedOk(Mutate(s, op).next)
  {
    hide Decide;
    if op.Claim? && EligibleOf(s.stable, s.pending) != [] {
      ClaimedIsEligible(s, op.deadline);
      assert Mutate(s, op) == ClaimOp(s, op.deadline);
      hide ClaimOp;
    }
  }

  /** Whatever the times are, stable goes back exactly when an early rebuild is finalized. */
  lemma StableRegressesExactly(s: Record, op: Op)
    requires PhaseOk(s) && ClaimedOk(s) && Fits(s, op) && Mutate(s, op).Commit?
    ensures NoNewer(s.stable, Mutate(s, op).next.stable) <==> !(op.Finalize? && EarlyRebuild(s.stable, op.image))
  {
    hide Decide;
    hide EligibleOf;
  }

  /** The record after a list of closures that all fit and commit. */
  ghost predicate Through(s: Record, ops: seq<Op>, next: Record)
    decreases ops
  {
    if ops == [] then next == s
    else Fits(s, ops[0]) && Mutate(s, ops[0]).Commit? && Through(Mutate(s, ops[0]).next, ops[1..], next)
  }

  lemma ThroughFirst(s: Record, op: Op, middle: Record, rest: seq<Op>, next: Record)
    requires Fits(s, op) && Mutate(s, op) == Commit(middle) && Through(middle, rest, next)
    ensures Through(s, [op] + rest, next)
  {
    hide Mutate;
    hide Fits;
    assert ([op] + rest)[1..] == rest;
  }

  /** From a claimed release, the closures of a successful one lead to its image being stable. */
  lemma ReleaseToStable(s: Record) returns (ops: seq<Op>, next: Record)
    requires InPhase(s, Preparing) && s.route.weight == 0
    ensures Through(s, ops, next) && next.stable == s.active.value.image
  {
    var image := s.active.value.image;
    var a := Mutate(s, Arm(0.0)).next;
    var b := Mutate(a, Advance(10, 0.0)).next;
    var c := Mutate(b, Advance(25, 0.0)).next;
    var d := Mutate(c, Advance(50, 0.0)).next;
    var e := Mutate(d, EnterFinalizing(0.0)).next;
    next := Mutate(e, Finalize(image, 0.0)).next;
    var last := [Finalize(image, 0.0)];
    assert last[1..] == [];
    assert Through(next, [], next);
    assert Through(e, last, next);
    ThroughFirst(d, EnterFinalizing(0.0), e, last, next);
    ThroughFirst(c, Advance(50, 0.0), d, [EnterFinalizing(0.0)] + last, next);
    ThroughFirst(b, Advance(25, 0.0), c, [Advance(50, 0.0)] + ([EnterFinalizing(0.0)] + last), next);
    ops := [Advance(25, 0.0)] + ([Advance(50, 0.0)] + ([EnterFinalizing(0.0)] + last));
    ThroughFirst(a, Advance(10, 0.0), b, ops, next);
    ThroughFirst(s, Arm(0.0), a, [Advance(10, 0.0)] + ops, next);
    ops := [Arm(0.0)] + ([Advance(10, 0.0)] + ops);
  }

  /** A rebuild dated before the epoch is queued at an unordered stable and claimed. */
  lemma EarlyRebuildIsClaimed(base: Image, early: Image)
    requires early.digest != base.digest && EarlyRebuild(base, early)
    ensures var queued := Mutate(Initial(base), Ingest(Some(early)));
            && queued.Commit?
            && var claimed := Mutate(queued.next, Claim(300.0));
            && claimed.Commit? && Fits(queued.next, Claim(300.0))
            && InPhase(claimed.next, Preparing) && claimed.next.route.weight == 0
            && claimed.next.active.value.image == early
  {
    var s := Initial(base);
    assert !Known(s, early.digest);
    var queued := Mutate(s, Ingest(Some(early)));
    assert queued.next.pending == [early];
    assert EligibleOf(base, [early]) == [early] by {
      assert EligibleOf(base, [early][1..]) == [];
    }
  }

  /** Every such candidate passes ingestion, is claimed, promoted and finalized, and stable has gone back to it. */
  lemma NegativeTimeRegresses(base: Image, early: Image) returns (ops: seq<Op>, next: Record)
    requires early.digest != base.digest && EarlyRebuild(base, early)
    ensures Through(Initial(base), ops, next)
    ensures next.stable == early && !NoNewer(base, next.stable)
  {
    EarlyRebuildIsClaimed(base, early);
    var queued := Mutate(Initial(base), Ingest(Some(early))).next;
    var claimed := Mutate(queued, Claim(300.0)).next;
    var rest;
    rest, next := ReleaseToStable(claimed);
    hide Mutate;
    ThroughFirst(queued, Claim(300.0), claimed, rest, next);
    ThroughFirst(Initial(base), Ingest(Some(early)), queued, [Claim(300.0)] + rest, next);
    ops := [Ingest(Some(early))] + ([Claim(300.0)] + rest);
  }

  /** For instance at the initial record, whose base image has version 1 and time 0. */
  lemma NegativeTimeExample() returns (ops: seq<Op>, next: Record)
    ensures Through(Initial(Image(1, "base", 0.0)), ops, next) && next.stable == Image(1, "early", -1.0)
  {
    ops, next := NegativeTimeRegresses(Image(1, "base", 0.0), Image(1, "early", -1.0));
  }
}
