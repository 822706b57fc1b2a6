/**
 * The release lifecycle on one record at a time: which closures fit which
 * record, and the invariant that every fitting closure preserves.
 */
module Lifecycle {
  import opened Bounded
  import opened ReleaseState
  import opened Authorization
  import opened Mutators

  /**
   * The captured values of a closure match the record it is applied to.
   * Nothing in the source checks this; module Cluster proves it from the lease.
   */
  predicate Fits(s: State, op: Op) {
    match op
    case Claim(_, _) => s.active.None?
    case Arm(_) => InPhase(s, Preparing)
    case MarkStage(_) => InPhase(s, Ramp)
    case Promote(weight, _) => InPhase(s, Ramp) && s.route.weight == weight
    case CommitStable(target, _) => InPhase(s, Finalizing) && target == s.active.value.target
    case Complete(pair, authId) =>
      InPhase(s, Draining) && pair == s.active.value.target.pair && authId == s.active.value.auth.hash
    case ForceZero => Recovering(s)
    case Restore(previous, pair, cause, authId) =>
      Recovering(s) && previous == s.active.value.previous && pair == s.active.value.target.pair
      && cause == s.active.value.reason && authId == s.active.value.auth.hash
    case Block => s.active.Some? ==> Recovering(s)
    case Resolve(snapshot, _) => Resolvable(snapshot)
    case _ => true
  }

  predicate InPhase(s: State, phase: Phase) {
    s.active.Some? && s.active.value.phase == phase
  }

  predicate Recovering(s: State) {
    s.active.Some? && s.active.value.phase in {Rollback, Blocked}
  }

  // ----- the invariant ------------------------------------------------------

  ghost predicate PendingOk(s: State) {
    && |s.pending| <= MAX_PENDING
    && (forall x :: x in s.pending ==> ValidItem(x) && x.event.version <= s.highest)
    && (forall i, j :: 0 <= i < j < |s.pending| ==> s.pending[i].event.version < s.pending[j].event.version)
  }

  ghost predicate PhaseOk(s: State) {
    match s.active
    case None => s.route.weight == 0
    case Some(a) =>
      && s.stable.Some?
      && (a.reason.Some? <==> a.phase in {Rollback, Blocked})
      && match a.phase
         case Preparing => s.route.weight == 0 && s.stable.value == a.previous
         case Ramp => IsStage(s.route.weight) && s.stable.value == a.previous
         case Finalizing => s.route.weight == 100 && s.stable.value == a.previous
         case Draining => s.route.weight == 0 && s.stable.value == a.target
         case _ => s.route.weight == 0 && s.stable.value in {a.previous, a.target}
  }

  ghost predicate ReleaseOk(s: State) {
    && (s.stable.Some? ==> s.stable.value.pair.version <= s.highest)
    && (s.active.Some? ==>
          var a := s.active.value;
          && ValidAuth(a.auth, ActiveCandidate(a))
          && a.previous == a.auth.evidence.basis.stable
          && a.previous.pair.version < a.target.pair.version <= s.highest
          && forall x :: x in s.pending ==> x.event.version > a.target.pair.version)
  }

  ghost predicate RecordInv(s: State) {
    PendingOk(s) && PhaseOk(s) && ReleaseOk(s)
  }

  // ----- claims --------------------------------------------------------------

  lemma {:induction false} WithVersionUnique(items: seq<Item>, i: nat)
    requires i < |items|
    requires forall k :: 0 <= k < |items| && k != i ==> items[k].event.version != items[i].event.version
    ensures WithVersion(items, items[i].event.version) == [items[i]]
    ensures FindVersion(items, items[i].event.version) == i
  {
    if i == 0 {
      WithVersionAbsent(items[1..], items[0].event.version);
    } else {
      assert forall k :: 0 <= k < |items[1..]| ==> items[1..][k] == items[k + 1];
      WithVersionUnique(items[1..], i - 1);
    }
  }

  lemma {:induction false} WithVersionAbsent(items: seq<Item>, version: nat)
    requires forall x :: x in items ==> x.event.version != version
    ensures WithVersion(items, version) == []
  {
    if items != [] {
      WithVersionAbsent(items[1..], version);
    }
  }

  /** What the claim test already guarantees about an item of the queue. */
  lemma ClaimableMeans(s: State, x: Item, now: Time)
    requires PendingOk(s) && x in s.pending && Claimable(s, x, now)
    ensures x.pair.Some? && x.fingerprint.Some?
    ensures s.active.None? && s.route.weight == 0 && s.stable.Some?
    ensures x.event.version == x.pair.value.version == s.highest
    ensures s.stable.value.pair.version < s.highest
    ensures var target := Serving(x.pair.value, x.fingerprint.value);
            x.auth.value.evidence.basis == Basis(Candidate(target, IdentityOf(x.event)), s.stable.value, s.highest)
    ensures x.auth.value.authorizedAt <= now < x.auth.value.expiresAt
    ensures ValidAuth(x.auth.value, Some(x.auth.value.evidence.basis.candidate))
  {
    var matches := WithVersion(s.pending, x.pair.value.version);
    var i :| 0 <= i < |s.pending| && s.pending[i] == x;
    WithVersionUnique(s.pending, i);
  }

  /** At most one queued item is ever eligible: the newest version ever accepted. */
  lemma OneEligible(s: State, check: Time, x: Item, y: Item)
    requires PendingOk(s) && s.stable.Some?
    requires x in Eligible(s, s.pending, check) && y in Eligible(s, s.pending, check)
    ensures x == y && x.event.version == s.highest
  {
    ClaimableMeans(s, x, check);
    ClaimableMeans(s, y, check);
    var i :| 0 <= i < |s.pending| && s.pending[i] == x;
    var j :| 0 <= j < |s.pending| && s.pending[j] == y;
  }

  /**
   * Claim correctness: the claimed version is the newest ever accepted and
   * newer than stable; claiming it empties the queue; and the new release
   * carries an unexpired approval of exactly this serving pair, fingerprint,
   * event and stable baseline, so its binding never fails.
   */
  lemma ClaimCorrect(s: State, check: Time, deadline: Time)
    requires PendingOk(s)
    requires ClaimOp(s, check, deadline).Commit? && ClaimOp(s, check, deadline).logged != []
    ensures var next := ClaimOp(s, check, deadline).next;
            && s.active.None? && s.stable.Some? && next.active.Some? && next.pending == []
            && var a := next.active.value;
            && a.target.pair.version == s.highest > s.stable.value.pair.version
            && a.previous == s.stable.value
            && a.phase == Preparing && a.reason.None? && next.route.weight == 0
            && a.auth.authorizedAt <= check < a.auth.expiresAt
            && a.auth.evidence.basis.candidate.serving == a.target
            && a.auth.evidence.basis.stable == s.stable.value
            && (exists i :: 0 <= i < |s.pending| && s.pending[i].event.version == s.highest
                            && s.pending[i].auth == Some(a.auth))
            && ValidAuth(a.auth, ActiveCandidate(a))
            && Binding(a) == Some(Bound(a.target, a.auth.hash, s.stable.value.pair))
  {
    var c := Newest(Eligible(s, s.pending, check));
    hide Snapshot;
    ClaimableMeans(s, c, check);
    NewerThanNewest(s.pending, s.highest);
    var i :| 0 <= i < |s.pending| && s.pending[i] == c;
  }

  /** Everything that a successful claim leaves alone. */
  lemma ClaimFrame(s: State, check: Time, deadline: Time)
    requires ClaimOp(s, check, deadline).Commit? && ClaimOp(s, check, deadline).logged != []
    ensures var r := ClaimOp(s, check, deadline);
            && r.next.active.Some?
            && r.logged == [Started(r.next.active.value.target.pair, r.next.active.value.auth.hash)]
            && r.next.stable == s.stable && r.next.highest == s.highest && r.next.lease == s.lease
            && r.next.identities == s.identities && r.next.processed == s.processed && r.next.failed == s.failed
  {
    hide Claimable;
  }

  lemma {:induction false} NewerThanNewest(items: seq<Item>, version: nat)
    requires forall x :: x in items ==> x.event.version <= version
    ensures Newer(items, version) == []
  {
    if items != [] {
      NewerThanNewest(items[1..], version);
    }
  }

  // ----- exactly what the queue closures do --------------------------------------------------

  lemma {:induction false} EventAt(items: seq<Item>, i: nat)
    requires i < |items| && forall k :: 0 <= k < i ==> items[k].event != items[i].event
    ensures FindEvent(items, items[i].event) == i
  {
    if i > 0 {
      assert forall k :: 0 <= k < |items[1..]| ==> items[1..][k] == items[k + 1];
      EventAt(items[1..], i - 1);
    }
  }

  /**
   * A result is recorded on exactly the item that was read: an image makes it
   * ready with the pair of its own event, no image a build request, a failure a
   * retry, or a blocked item at the limit. On any other queue nothing happens.
   */
  lemma ResolveExactly(s: State, snapshot: Item, r: Resolution)
    requires PendingOk(s)
    ensures snapshot !in s.pending ==> Mutate(s, Resolve(snapshot, r)) == Commit(s, [])
    ensures forall i :: 0 <= i < |s.pending| && s.pending[i] == snapshot ==>
              var x := snapshot;
              var y :=
                if r.Unresolved? then
                  Item(x.event, if x.attempts + 1 >= r.maxAttempts then ResolutionBlocked else ResolutionRetry,
                       x.attempts + 1, r.next, x.pair, x.fingerprint, x.request, x.auth, Some(r.error))
                else if r.image.None? then
                  Item(x.event, BuildRequired, 0, r.next, x.pair, Some(r.fingerprint),
                       Some(Request(r.fingerprint, true)), x.auth, x.error)
                else
                  Item(x.event, ReadyForRelease, 0, r.next, Some(Pair(x.event.version, r.image.value, x.event.uri)),
                       Some(r.fingerprint), Some(Request(r.fingerprint, true)), x.auth, x.error);
              var row := Resolution(y.status, x.event.version);
              Mutate(s, Resolve(snapshot, r)) == Commit(Audit(s.(pending := s.pending[i := y]), row), [row])
  {
    var op := Resolve(snapshot, r);
    assert Mutate(s, op) == ResolveOp(s, snapshot, r);
    hide Mutate;
    hide ValidItem;
    forall i | 0 <= i < |s.pending| && s.pending[i] == snapshot
      ensures FindEvent(s.pending, snapshot.event) == i
    {
      EventAt(s.pending, i);
    }
  }

  /** A version is recovered exactly when it is queued and blocked; its attempts start again at that reading. */
  lemma RecoverExactly(s: State, version: nat, now: Time)
    requires PendingOk(s)
    ensures Mutate(s, Recover(version, now)).Commit? <==>
              exists i :: 0 <= i < |s.pending| && s.pending[i].event.version == version
                          && s.pending[i].status == ResolutionBlocked
    ensures forall i :: 0 <= i < |s.pending| && s.pending[i].event.version == version
                        && s.pending[i].status == ResolutionBlocked ==>
              var x := s.pending[i];
              var y := Item(x.event, ResolutionRetry, 0, now, x.pair, x.fingerprint, x.request, x.auth, None);
              Mutate(s, Recover(version, now))
              == Commit(Audit(s.(pending := s.pending[i := y]), Recovered(version)), [Recovered(version)])
  {
    assert Mutate(s, Recover(version, now)) == RecoverOp(s, version, now);
    hide Mutate;
    hide ValidItem;
    var k := FindVersion(s.pending, version);
    if k < |s.pending| {
      WithVersionUnique(s.pending, k);
    }
    hide WithVersion;
  }

  /** The items that a claim at this reading could start: at most one, by OneEligible. */
  predicate Approved(s: State, x: Item, check: Time) {
    && x in s.pending && x.status == ApprovedForRelease && x.auth.Some? && x.pair.Some? && x.fingerprint.Some?
    && x.auth.value.authorizedAt <= check < x.auth.value.expiresAt
    && s.active.None? && s.route.weight == 0 && s.stable.Some?
    && s.stable.value.pair.version < x.event.version == s.highest
    && x.request == Some(Request(x.fingerprint.value, true))
    && x.auth.value.evidence.basis
       == Basis(Candidate(Serving(x.pair.value, x.fingerprint.value),
                          Identity(x.event.version, x.event.uri, x.event.run)),
                s.stable.value, s.highest)
  }

  lemma EligibleExactly(s: State, x: Item, check: Time)
    requires PendingOk(s) && x in s.pending
    ensures s.stable.Some? && x in Eligible(s, s.pending, check) <==> Approved(s, x, check)
  {
    assert ValidItem(x);
    var i :| 0 <= i < |s.pending| && s.pending[i] == x;
    if x.pair.Some? && x.pair.value.version == x.event.version {
      WithVersionUnique(s.pending, i);
    }
    hide PendingOk;
    hide WithVersion;
  }

  /** A claim starts a release exactly when such an item is queued, and it starts that one. */
  lemma ClaimExactly(s: State, check: Time, deadline: Time)
    requires PendingOk(s)
    ensures (forall x :: !Approved(s, x, check)) ==> Mutate(s, Claim(check, deadline)) == Commit(s, [])
    ensures forall x :: Approved(s, x, check) ==>
              var a := Active(Serving(x.pair.value, x.fingerprint.value), s.stable.value, Preparing, None, deadline,
                              None, x.auth.value);
              var row := Started(x.pair.value, x.auth.value.hash);
              Mutate(s, Claim(check, deadline)) == Commit(Audit(s.(pending := [], active := Some(a)), row), [row])
  {
    assert Mutate(s, Claim(check, deadline)) == ClaimOp(s, check, deadline);
    hide Mutate;
    forall x | x in s.pending
      ensures s.stable.Some? && x in Eligible(s, s.pending, check) <==> Approved(s, x, check)
    {
      EligibleExactly(s, x, check);
    }
    forall x | Approved(s, x, check)
      ensures Newest(Eligible(s, s.pending, check)) == x && Newer(s.pending, x.pair.value.version) == []
    {
      OneEligible(s, check, x, Newest(Eligible(s, s.pending, check)));
      ClaimableMeans(s, x, check);
      NewerThanNewest(s.pending, s.highest);
    }
    hide Approved;
    hide Claimable;
    hide PendingOk;
  }

  // ----- preservation ---------------------------------------------------------

  predicate ChangesQueue(op: Op) {
    op.Ingest? || op.Resolve? || op.Recover? || op.Authorize?
  }

  /** Queue closures leave the leased part of the record alone, whatever they do. */
  lemma QueueKeepsView(s: State, op: Op)
    requires ChangesQueue(op) && Mutate(s, op).Commit?
    ensures ViewOf(Mutate(s, op).next) == ViewOf(s)
    ensures Mutate(s, op).next.lease == s.lease
    ensures s.highest <= Mutate(s, op).next.highest
  {
  }

  /** Positions of the queue keep their event, and their approval unless it is rewritten; Accept appends. */
  ghost predicate Aligned(s: State, op: Op, next: State) {
    && s.highest <= next.highest
    && |s.pending| <= |next.pending| <= |s.pending| + 1
    && (forall i :: 0 <= i < |s.pending| ==> next.pending[i].event == s.pending[i].event)
    && (forall i :: 0 <= i < |s.pending| && !op.Authorize? ==> next.pending[i].auth == s.pending[i].auth)
    && (|next.pending| > |s.pending| ==>
          op.Ingest? && next.pending == s.pending + [NewItem(op.event)]
          && s.highest < op.event.version == next.highest)
    && (|next.pending| == |s.pending| ==> next.highest == s.highest)
  }

  lemma IngestAligned(s: State, op: Op)
    requires op.Ingest? && IngestOp(s, op.event).Commit?
    ensures Aligned(s, op, IngestOp(s, op.event).next)
  {
    hide Known;
  }

  lemma AuthorizeAligned(s: State, op: Op)
    requires op.Authorize? && AuthorizeOp(s, op.expected, op.now).Commit?
    ensures Aligned(s, op, AuthorizeOp(s, op.expected, op.now).next)
  {
    hide Snapshot;
    hide Claimable;
    hide MayReplace;
    hide ValidAuth;
  }

  lemma QueueAligned(s: State, op: Op)
    requires ChangesQueue(op) && Mutate(s, op).Commit?
    ensures Aligned(s, op, Mutate(s, op).next)
  {
    match op
    case Ingest(e) =>
      assert Mutate(s, op) == IngestOp(s, e);
      hide Mutate;
      IngestAligned(s, op);
      hide IngestOp;
    case Resolve(snapshot, r) =>
      assert Mutate(s, op) == ResolveOp(s, snapshot, r);
      hide Mutate;
    case Recover(version, now) =>
      assert Mutate(s, op) == RecoverOp(s, version, now);
      hide Mutate;
      hide WithVersion;
    case Authorize(expected, now) =>
      assert Mutate(s, op) == AuthorizeOp(s, expected, now);
      hide Mutate;
      AuthorizeAligned(s, op);
      hide AuthorizeOp;
  }

  predicate ItemsValid(items: seq<Item>) {
    forall i :: 0 <= i < |items| ==> ValidItem(items[i])
  }

  lemma IngestItemsValid(s: State, e: Event)
    requires ItemsValid(s.pending) && |s.pending| <= MAX_PENDING && IngestOp(s, e).Commit?
    ensures ItemsValid(IngestOp(s, e).next.pending) && |IngestOp(s, e).next.pending| <= MAX_PENDING
  {
    hide Known;
    assert ValidItem(NewItem(e));
    hide ValidItem;
  }

  lemma AppliedItemValid(x: Item, r: Resolution)
    requires ValidItem(x) && Resolvable(x)
    ensures ValidItem(Apply(x, r))
  {
    hide ValidAuth;
  }

  lemma ResolveItemsValid(s: State, snapshot: Item, r: Resolution)
    requires ItemsValid(s.pending) && Resolvable(snapshot) && ResolveOp(s, snapshot, r).Commit?
    ensures ItemsValid(ResolveOp(s, snapshot, r).next.pending)
    ensures |ResolveOp(s, snapshot, r).next.pending| == |s.pending|
  {
    hide ValidItem;
    hide Apply;
    var i := FindEvent(s.pending, snapshot.event);
    if i < |s.pending| && s.pending[i] == snapshot {
      AppliedItemValid(snapshot, r);
    }
  }

  lemma RecoverItemsValid(s: State, version: nat, now: Time)
    requires ItemsValid(s.pending) && RecoverOp(s, version, now).Commit?
    ensures ItemsValid(RecoverOp(s, version, now).next.pending)
    ensures |RecoverOp(s, version, now).next.pending| == |s.pending|
  {
    hide WithVersion;
    hide ValidAuth;
  }

  /** The approved item passes its own check; the others are as they were. */
  lemma ApprovedItemsValid(s: State, expected: Evidence, now: Time)
    requires ItemsValid(s.pending) && AuthorizeOp(s, expected, now).Commit?
    ensures ItemsValid(AuthorizeOp(s, expected, now).next.pending)
    ensures |AuthorizeOp(s, expected, now).next.pending| == |s.pending|
  {
    hide Claimable;
    hide MayReplace;
    hide Snapshot;
  }

  lemma QueueItemsValid(s: State, op: Op)
    requires (forall x :: x in s.pending ==> ValidItem(x)) && |s.pending| <= MAX_PENDING
    requires ChangesQueue(op) && Fits(s, op) && Mutate(s, op).Commit?
    ensures |Mutate(s, op).next.pending| <= MAX_PENDING
    ensures forall i :: 0 <= i < |Mutate(s, op).next.pending| ==> ValidItem(Mutate(s, op).next.pending[i])
  {
    assert ItemsValid(s.pending);
    hide ValidItem;
    hide IngestOp;
    hide ResolveOp;
    hide RecoverOp;
    hide AuthorizeOp;
    match op
    case Ingest(e) => IngestItemsValid(s, e);
    case Resolve(snapshot, r) => ResolveItemsValid(s, snapshot, r);
    case Recover(version, now) => RecoverItemsValid(s, version, now);
    case Authorize(expected, now) => ApprovedItemsValid(s, expected, now);
  }

  lemma QueueKeepsRecordInv(s: State, op: Op)
    requires RecordInv(s) && ChangesQueue(op) && Fits(s, op) && Mutate(s, op).Commit?
    ensures RecordInv(Mutate(s, op).next)
  {
    var next := Mutate(s, op).next;
    QueueKeepsView(s, op);
    QueueAligned(s, op);
    QueueItemsValid(s, op);
    hide Mutate;
    AlignedKeepsPhase(s, next);
    AlignedKeepsPending(s, op, next);
    AlignedKeepsRelease(s, op, next);
    hide PendingOk;
    hide PhaseOk;
    hide ReleaseOk;
  }

  lemma AlignedKeepsPhase(s: State, next: State)
    requires PhaseOk(s) && ViewOf(next) == ViewOf(s)
    ensures PhaseOk(next)
  {
  }

  lemma AlignedKeepsPending(s: State, op: Op, next: State)
    requires PendingOk(s) && Aligned(s, op, next) && |next.pending| <= MAX_PENDING
    requires forall i :: 0 <= i < |next.pending| ==> ValidItem(next.pending[i])
    ensures PendingOk(next)
  {
    hide ValidItem;
    assert forall i :: 0 <= i < |s.pending| ==> s.pending[i] in s.pending;
    forall x | x in next.pending
      ensures ValidItem(x) && x.event.version <= next.highest
    {
      var k :| 0 <= k < |next.pending| && next.pending[k] == x;
    }
  }

  lemma AlignedKeepsRelease(s: State, op: Op, next: State)
    requires ReleaseOk(s) && Aligned(s, op, next) && ViewOf(next) == ViewOf(s)
    ensures ReleaseOk(next)
  {
    hide ValidAuth;
    assert forall i :: 0 <= i < |s.pending| ==> s.pending[i] in s.pending;
    forall x | x in next.pending && s.active.Some?
      ensures x.event.version > s.active.value.target.pair.version
    {
      var k :| 0 <= k < |next.pending| && next.pending[k] == x;
    }
  }

  lemma ClaimKeepsRecordInv(s: State, check: Time, deadline: Time)
    requires PendingOk(s) && ClaimOp(s, check, deadline).Commit? && ClaimOp(s, check, deadline).logged != []
    ensures RecordInv(ClaimOp(s, check, deadline).next)
  {
    hide ClaimOp;
    hide ValidAuth;
    hide ValidItem;
    hide Binding;
    ClaimCorrect(s, check, deadline);
    ClaimFrame(s, check, deadline);
  }

  lemma OthersKeepQueue(s: State, op: Op)
    requires !ChangesQueue(op) && Mutate(s, op).Commit? && (op.Claim? ==> Mutate(s, op).logged == [])
    requires PhaseOk(s) && Fits(s, op)
    ensures Mutate(s, op).next.pending == s.pending && s.highest <= Mutate(s, op).next.highest
    ensures s.active.Some? ==> s.highest == Mutate(s, op).next.highest
  {
  }

  lemma OthersKeepPhase(s: State, op: Op)
    requires PhaseOk(s) && Fits(s, op)
    requires !ChangesQueue(op) && Mutate(s, op).Commit? && (op.Claim? ==> Mutate(s, op).logged == [])
    ensures PhaseOk(Mutate(s, op).next)
  {
  }

  lemma OthersKeepRelease(s: State, op: Op)
    requires PhaseOk(s) && ReleaseOk(s) && Fits(s, op)
    requires !ChangesQueue(op) && Mutate(s, op).Commit? && (op.Claim? ==> Mutate(s, op).logged == [])
    ensures ReleaseOk(Mutate(s, op).next)
  {
    OthersKeepQueue(s, op);
    hide ValidAuth;
  }

  /** Every closure that fits the record preserves the record invariant. */
  lemma FittingKeepsRecordInv(s: State, op: Op)
    requires RecordInv(s) && Fits(s, op) && Mutate(s, op).Commit?
    ensures RecordInv(Mutate(s, op).next)
  {
    if ChangesQueue(op) {
      QueueKeepsRecordInv(s, op);
    } else if op.Claim? && Mutate(s, op).logged != [] {
      ClaimKeepsRecordInv(s, op.check, op.deadline);
      assert Mutate(s, op) == ClaimOp(s, op.check, op.deadline);
      hide ClaimOp;
    } else {
      OthersKeepQueue(s, op);
      OthersKeepPhase(s, op);
      OthersKeepRelease(s, op);
    }
    hide Mutate;
    hide PhaseOk;
    hide ReleaseOk;
    hide ValidItem;
  }

  /** On records that satisfy the invariant, no closure of a controller raises unless the release is already over. */
  lemma FittingNeverRaises(s: State, op: Op)
    requires RecordInv(s) && Fits(s, op) && ByController(op)
    ensures Mutate(s, op).Raise? ==> s.active.None? && (op.BeginRollback? || op.Block?)
  {
  }

  /** Structural validation can only reject a record for its history bounds. */
  lemma RecordInvValidates(s: State)
    requires RecordInv(s)
    requires |s.audit| <= HISTORY && |s.identities| <= HISTORY && |s.processed| <= HISTORY && |s.failed| <= HISTORY
    ensures Validated(s)
  {
  }
}
