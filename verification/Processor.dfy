/** The resolution processor: it reads an item, looks outside, and commits only on the unchanged item. */
module Processor {
  import opened Bounded
  import opened ReleaseState
  import opened Authorization
  import opened Mutators
  import opened Lifecycle
  import opened Machine
  import opened Conservation
  import opened Store
  import BuildContract

  /**
   * What one tick meets outside: the contract of the artifact (None for any
   * exception), and the catalogue's image for each of the two profiles.
   */
  datatype Findings = Findings(contract: Option<BuildContract.Contract>, oldImage: Option<string>,
                               newImage: Option<string>, error: string)

  /** The fingerprint of a contract under a profile. */
  type Digester = (BuildContract.Contract, BuildContract.Profile) -> Digest

  predicate Eligible(item: Item, now: Time) {
    Resolvable(item) && item.nextAttempt <= now
  }

  /** Index of the first item that is due, or the length. */
  function FirstDue(items: seq<Item>, now: Time): (i: nat)
    ensures i <= |items|
    ensures i < |items| ==> Eligible(items[i], now)
    ensures forall k :: 0 <= k < i ==> !Eligible(items[k], now)
  {
    if items == [] || Eligible(items[0], now) then 0 else 1 + FirstDue(items[1..], now)
  }

  function PowerOfTwo(n: nat): (r: nat)
    ensures r >= 1
  {
    if n == 0 then 1 else 2 * PowerOfTwo(n - 1)
  }

  /** Seconds until the next attempt. */
  function Backoff(attempts: nat): (d: nat)
    ensures 0 < d <= 900
    ensures attempts > 0 ==> d >= 30
  {
    var d := 15 * PowerOfTwo(attempts);
    if d < 900 then d else 900
  }

  /** An image of the old profile is used if there is one; otherwise everything is about the new profile. */
  function ResultOf(item: Item, f: Findings, digest: Digester,
                    later: Time, maxAttempts: nat): Resolution
  {
    match f.contract
    case None => Unresolved(f.error, later + Backoff(item.attempts + 1) as real, maxAttempts)
    case Some(c) =>
      if f.oldImage.Some? then Resolved(digest(c, BuildContract.PROFILE_X), f.oldImage, later + 900.0)
      else Resolved(digest(c, BuildContract.PROFILE_CI), f.newImage, later + 900.0)
  }

  /** One tick; `between` is what other writers commit while it looks outside. */
  method Tick(backend: Backend, now: Time, f: Findings,
              digest: Digester, later: Time, maxAttempts: nat,
              between: seq<Op>, turns: seq<Turn>)
    returns (answer: Option<Answer>)
    requires backend.Valid()
    modifies backend
    ensures backend.Valid()
    ensures var items := old(backend.world).s.pending;
            var i := FirstDue(items, now);
            if i == |items| then answer.None? && backend.world == old(backend.world)
            else
              answer.Some?
              && Updated(backend.world, answer.value)
                 == UpdateSpec(Steps(old(backend.world), between),
                               Resolve(items[i], ResultOf(items[i], f, digest, later, maxAttempts)), turns)
  {
    hide UpdateSpec;
    hide Step;
    hide ResultOf;
    var items := backend.state.pending;
    var i := 0;
    assert items[0..] == items;
    while i < |items| && !Eligible(items[i], now)
      invariant i <= |items| && FirstDue(items, now) == i + FirstDue(items[i..], now)
    {
      assert items[i..][1..] == items[i + 1..];
      i := i + 1;
    }
    if i == |items| {
      return None;
    }
    var snapshot := items[i];
    backend.Interfere(between);
    var a := Update(backend, Resolve(snapshot, ResultOf(snapshot, f, digest, later, maxAttempts)), turns);
    return Some(a);
  }

  // ----- what a tick guarantees -------------------------------------------------------------

  /** A tick's closure fits every record, whatever happened since the item was read. */
  lemma TickFits(items: seq<Item>, now: Time, s: State, r: Resolution)
    requires FirstDue(items, now) < |items|
    ensures Fits(s, Resolve(items[FirstDue(items, now)], r))
  {
  }

  /**
   * A processor's closure as a tick makes it whose own clock does not go back
   * between choosing the item and stamping the result.
   */
  ghost predicate MadeByTick(op: Op, digest: Digester, limit: nat) {
    op.Resolve? ==>
      exists now: Time, later: Time, f: Findings ::
        Eligible(op.snapshot, now) && now <= later && op.result == ResultOf(op.snapshot, f, digest, later, limit)
  }

  ghost predicate AllByTicks(ops: seq<Op>, digest: Digester, limit: nat) {
    forall k :: 0 <= k < |ops| ==> MadeByTick(ops[k], digest, limit)
  }

  /** A looked-up item waits 900 seconds longer than it did, a failed one as long as its backoff. */
  predicate Delays(op: Op) {
    op.Resolve? ==>
      op.result.next >= op.snapshot.nextAttempt
                        + (if op.result.Resolved? then 900.0 else Backoff(op.snapshot.attempts + 1) as real)
  }

  /** So a resolved item is due at least 30 seconds later than it was. */
  lemma DueMovesOn(op: Op, digest: Digester, limit: nat)
    requires MadeByTick(op, digest, limit) && op.Resolve?
    ensures Delays(op) && op.result.next >= op.snapshot.nextAttempt + 30.0
  {
    hide Backoff;
  }

  // ----- attempts ---------------------------------------------------------------------------

  /** As a recovery leaves an item. */
  predicate ByRecovery(x: Item) {
    x.status == ResolutionRetry && x.attempts == 0 && x.error.None?
  }

  /** As an attempt leaves an item that is still to be resolved. */
  predicate ByAttempt(x: Item) {
    || (x.status == ResolutionRetry && x.attempts > 0 && x.error.Some?)
    || (x.status == BuildRequired && x.attempts == 0 && x.fingerprint.Some?
        && x.request == Some(Request(x.fingerprint.value, true)))
  }

  /**
   * Resolution is blocked exactly when the failures in a row have reached the
   * limit; an item that keeps an error and is not blocked has failed below it.
   */
  predicate AttemptsOk(item: Item, limit: nat) {
    && item.attempts <= limit && (item.status == ResolutionBlocked <==> item.attempts == limit)
    && (item.error.Some? && item.status != ResolutionBlocked ==> limit > 1)
  }

  /** What ticks with this digest and this limit make of an item. */
  ghost predicate ByTicks(x: Item, digest: Digester, limit: nat) {
    && AttemptsOk(x, limit)
    && (Resolvable(x) ==> x.status == Accepted || ByRecovery(x) || ByAttempt(x))
    && (x.status == BuildRequired ==> exists c :: x.fingerprint == Some(digest(c, BuildContract.PROFILE_CI)))
  }

  ghost predicate QueueByTicks(s: State, digest: Digester, limit: nat) {
    forall i :: 0 <= i < |s.pending| ==> ByTicks(s.pending[i], digest, limit)
  }

  /** Every closure keeps that, if all processors use the same digest and the same limit. */
  lemma AttemptsStayOk(s: State, op: Op, digest: Digester, limit: nat)
    requires RecordInv(s) && Fits(s, op) && Mutate(s, op).Commit? && limit > 0
    requires MadeByTick(op, digest, limit) && QueueByTicks(s, digest, limit)
    ensures QueueByTicks(Mutate(s, op).next, digest, limit)
  {
    match op
    case Resolve(snapshot, r) =>
      assert Mutate(s, op) == ResolveOp(s, snapshot, r) && Resolvable(snapshot);
      hide Mutate;
      hide RecordInv;
      hide ByTicks;
      hide Apply;
      var i := FindEvent(s.pending, snapshot.event);
      if i < |s.pending| && s.pending[i] == snapshot {
        AttemptStaysByTicks(snapshot, op, digest, limit);
      }
      hide MadeByTick;
    case Authorize(expected, now) =>
      assert Mutate(s, op) == AuthorizeOp(s, expected, now);
      hide Mutate;
      hide AuthorizeOp;
      hide PendingOk;
      AuthorizeKeepsByTicks(s, expected, now, digest, limit);
    case _ =>
      OthersKeepByTicks(s, op, digest, limit);
  }

  lemma AttemptStaysByTicks(x: Item, op: Op, digest: Digester, limit: nat)
    requires op.Resolve? && op.snapshot == x && Resolvable(x) && MadeByTick(op, digest, limit)
    requires ByTicks(x, digest, limit) && limit > 0
    ensures ByTicks(Apply(x, op.result), digest, limit)
  {
    hide Backoff;
  }

  lemma IngestKeepsByTicks(s: State, e: Event, digest: Digester, limit: nat)
    requires QueueByTicks(s, digest, limit) && limit > 0 && IngestOp(s, e).Commit?
    ensures QueueByTicks(IngestOp(s, e).next, digest, limit)
  {
    hide Known;
    assert ByTicks(NewItem(e), digest, limit);
    hide ByTicks;
  }

  lemma RecoverKeepsByTicks(s: State, version: nat, now: Time, digest: Digester, limit: nat)
    requires QueueByTicks(s, digest, limit) && limit > 0 && RecoverOp(s, version, now).Commit?
    ensures QueueByTicks(RecoverOp(s, version, now).next, digest, limit)
  {
    assert ByTicks(Recovered(s.pending[FindVersion(s.pending, version)], now), digest, limit);
    hide ByTicks;
  }

  lemma OthersKeepByTicks(s: State, op: Op, digest: Digester, limit: nat)
    requires RecordInv(s) && Fits(s, op) && Mutate(s, op).Commit? && limit > 0
    requires !op.Resolve? && !op.Authorize? && QueueByTicks(s, digest, limit)
    ensures QueueByTicks(Mutate(s, op).next, digest, limit)
  {
    hide ByTicks;
    if op.Ingest? {
      assert Mutate(s, op) == IngestOp(s, op.event);
      hide Mutate;
      IngestKeepsByTicks(s, op.event, digest, limit);
      hide IngestOp;
    } else if op.Recover? {
      assert Mutate(s, op) == RecoverOp(s, op.version, op.now);
      hide Mutate;
      RecoverKeepsByTicks(s, op.version, op.now, digest, limit);
      hide RecoverOp;
    } else if op.Claim? && Mutate(s, op).logged != [] {
      assert Mutate(s, op) == ClaimOp(s, op.check, op.deadline);
      hide Mutate;
      hide ClaimOp;
      ClaimCorrect(s, op.check, op.deadline);
      hide PendingOk;
    } else {
      hide PendingOk;
      hide ReleaseOk;
      OthersKeepQueue(s, op);
      hide Mutate;
    }
  }

  lemma AuthorizeKeepsByTicks(s: State, expected: Evidence, now: Time,
                              digest: Digester, limit: nat)
    requires PendingOk(s) && QueueByTicks(s, digest, limit) && AuthorizeOp(s, expected, now).Commit?
    ensures QueueByTicks(AuthorizeOp(s, expected, now).next, digest, limit)
  {
    var version := expected.basis.candidate.serving.pair.version;
    var i := FindVersion(s.pending, version);
    if AuthorizeOp(s, expected, now).logged != [] {
      WithVersionUnique(s.pending, i);
      assert ByTicks(s.pending[i], digest, limit);
    }
    hide ValidAuth;
  }

  // ----- exactly what a tick does -----------------------------------------------------------

  /** 30 seconds after the first failure, then doubled, and never more than 900. */
  lemma BackoffExactly(attempts: nat)
    requires attempts > 0
    ensures Backoff(attempts) == match attempts
                                 case 1 => 30
                                 case 2 => 60
                                 case 3 => 120
                                 case 4 => 240
                                 case 5 => 480
                                 case _ => 900
  {
    if attempts < 6 {
      assert PowerOfTwo(1) == 2 && PowerOfTwo(2) == 4 && PowerOfTwo(3) == 8;
      assert PowerOfTwo(4) == 16 && PowerOfTwo(5) == 32;
    } else {
      PowersGrow(6, attempts);
      assert PowerOfTwo(3) == 8 && PowerOfTwo(6) == 8 * PowerOfTwo(3);
    }
  }

  lemma {:induction false} PowersGrow(m: nat, n: nat)
    requires m <= n
    ensures PowerOfTwo(m) <= PowerOfTwo(n)
  {
    if m < n {
      PowersGrow(m, n - 1);
    }
  }

  /** A tick works on item i: it waits to be resolved, it is due, and no earlier one does and is. */
  predicate IsFirstDue(items: seq<Item>, now: Time, i: nat) {
    && i < |items|
    && items[i].status in {Accepted, ResolutionRetry, BuildRequired} && items[i].nextAttempt <= now
    && forall k :: 0 <= k < i && items[k].status in {Accepted, ResolutionRetry, BuildRequired} ==>
         items[k].nextAttempt > now
  }

  lemma FirstDueExactly(items: seq<Item>, now: Time, i: nat)
    ensures IsFirstDue(items, now, i) <==> i < |items| && FirstDue(items, now) == i
  {
    if i < |items| && (IsFirstDue(items, now, i) || FirstDue(items, now) == i) {
      assert forall k :: 0 <= k < i ==>
               (Eligible(items[k], now) <==> items[k].nextAttempt <= now && Resolvable(items[k]));
    }
  }

  /**
   * What an undisturbed tick does to the record. The reviewed profile is asked
   * first and the other one only when it has no image; without any image the
   * build request is for the other profile.
   */
  lemma TickExactly(s: State, now: Time, i: nat, f: Findings, digest: Digester, later: Time, limit: nat)
    requires PendingOk(s) && IsFirstDue(s.pending, now, i)
    ensures var x := s.pending[i];
            var op := Resolve(x, ResultOf(x, f, digest, later, limit));
            var y :=
              if f.contract.None? then
                Item(x.event, if x.attempts + 1 < limit then ResolutionRetry else ResolutionBlocked, x.attempts + 1,
                     later + Backoff(x.attempts + 1) as real, x.pair, x.fingerprint, x.request, x.auth, Some(f.error))
              else
                var first, second :=
                  digest(f.contract.value, BuildContract.PROFILE_X), digest(f.contract.value, BuildContract.PROFILE_CI);
                if f.oldImage.Some? then
                  Item(x.event, ReadyForRelease, 0, later + 900.0,
                       Some(Pair(x.event.version, f.oldImage.value, x.event.uri)), Some(first),
                       Some(Request(first, true)), x.auth, x.error)
                else if f.newImage.Some? then
                  Item(x.event, ReadyForRelease, 0, later + 900.0,
                       Some(Pair(x.event.version, f.newImage.value, x.event.uri)), Some(second),
                       Some(Request(second, true)), x.auth, x.error)
                else
                  Item(x.event, BuildRequired, 0, later + 900.0, x.pair, Some(second), Some(Request(second, true)),
                       x.auth, x.error);
            var row := Resolution(y.status, x.event.version);
            Mutate(s, op) == Commit(Audit(s.(pending := s.pending[i := y]), row), [row])
  {
    var x := s.pending[i];
    ResolveExactly(s, x, ResultOf(x, f, digest, later, limit));
    hide PendingOk;
    hide Mutate;
    hide Backoff;
    hide IsFirstDue;
  }

  // ----- the readings that matter -----------------------------------------------------------

  /** The backoffs of the failures from this many to that many, added up. */
  function Waiting(done: nat, attempts: nat): (t: Time)
    ensures t >= 0.0 && (done < attempts ==> t > 0.0)
    decreases attempts - done
  {
    if done >= attempts then 0.0 else Backoff(done + 1) as real + Waiting(done + 1, attempts)
  }

  /** A due time that attempts cannot get below when they turn x into an item like y. */
  function Soonest(x: Item, y: Item): (t: Time)
    ensures t >= x.nextAttempt
  {
    x.nextAttempt
    + if y.status == ResolutionRetry then Waiting(x.attempts, y.attempts)
      else if y.error.Some? && x.error.None? then 930.0
      else if x.status == BuildRequired then 0.0
      else 900.0
  }

  function Recovered(x: Item, reading: Time): Item {
    x.(status := ResolutionRetry, attempts := 0, nextAttempt := reading, error := None)
  }

  /**
   * The clock readings of an operator recovery after which the very same item
   * can come back. For a retry the backoffs of its failures have to fit in
   * between, for a build request the 900 seconds of the lookup, and 30 more
   * if it carries the error of an earlier failure. A recovered item only comes
   * back by a recovery at exactly its due time.
   */
  predicate Restores(snapshot: Item, reading: Time) {
    || (ByRecovery(snapshot) && reading == snapshot.nextAttempt)
    || (ByAttempt(snapshot) && Soonest(Recovered(snapshot, reading), snapshot) <= snapshot.nextAttempt)
  }

  /** The condition in seconds; a reading from the due time on only restores a recovered item, and only at that time. */
  lemma RestoresMeans(snapshot: Item, reading: Time)
    ensures Restores(snapshot, reading) <==>
              match snapshot.status
              case ResolutionRetry =>
                if snapshot.attempts == 0 then snapshot.error.None? && reading == snapshot.nextAttempt
                else snapshot.error.Some? && reading + Waiting(0, snapshot.attempts) <= snapshot.nextAttempt
              case BuildRequired =>
                && ByAttempt(snapshot)
                && reading + (if snapshot.error.Some? then 930.0 else 900.0) <= snapshot.nextAttempt
              case _ => false
    ensures reading >= snapshot.nextAttempt && Restores(snapshot, reading) ==>
              ByRecovery(snapshot) && reading == snapshot.nextAttempt
  {
    hide Waiting;
  }

  ghost predicate Quiet(snapshot: Item, ops: seq<Op>) {
    forall k :: 0 <= k < |ops| && ops[k].Recover? && ops[k].version == snapshot.event.version ==>
      !Restores(snapshot, ops[k].now)
  }

  // ----- only the first transition ----------------------------------------------------------

  /** The snapshot is not the current item of its event, and no attempt can make it so. */
  predicate Beyond(snapshot: Item, x: Item) {
    x != snapshot && (ByAttempt(snapshot) ==> Soonest(x, snapshot) > snapshot.nextAttempt)
  }

  ghost predicate Away(snapshot: Item, s: State) {
    && snapshot.event.version <= s.highest
    && forall k :: 0 <= k < |s.pending| && s.pending[k].event == snapshot.event ==> Beyond(snapshot, s.pending[k])
  }

  lemma {:induction false} WaitingFromZero(done: nat, attempts: nat)
    ensures Waiting(0, attempts) >= Waiting(done, attempts)
  {
    hide Backoff;
    if 0 < done {
      WaitingFromZero(done - 1, attempts);
    }
  }

  /** Neither an attempt on the snapshot itself nor one on an item beyond it leads to it. */
  lemma AttemptStaysBeyond(snapshot: Item, x: Item, r: Resolution)
    requires Resolvable(x) && Resolvable(snapshot) && Delays(Resolve(x, r))
    requires Beyond(snapshot, x) || x == snapshot
    ensures Beyond(snapshot, Apply(x, r))
  {
    hide Backoff;
    WaitingFromZero(x.attempts, snapshot.attempts);
    assert ByAttempt(snapshot) ==> Soonest(Apply(x, r), snapshot) > snapshot.nextAttempt;
  }

  lemma RecoveryStaysBeyond(snapshot: Item, x: Item, reading: Time)
    requires Resolvable(snapshot) && !Restores(snapshot, reading) && x.event == snapshot.event
    ensures Beyond(snapshot, Recovered(x, reading))
  {
    hide Waiting;
  }

  lemma StepStaysAway(s: State, op: Op, snapshot: Item)
    requires RecordInv(s) && Fits(s, op) && Mutate(s, op).Commit? && Resolvable(snapshot)
    requires Away(snapshot, s) && Quiet(snapshot, [op]) && Delays(op)
    ensures Away(snapshot, Mutate(s, op).next)
  {
    hide Delays;
    hide Soonest;
    if op.Resolve? {
      assert Mutate(s, op) == ResolveOp(s, op.snapshot, op.result);
      hide RecordInv;
      hide Mutate;
      ResolveStaysAway(s, op, snapshot);
    } else if op.Recover? {
      assert Mutate(s, op) == RecoverOp(s, op.version, op.now) && [op][0] == op;
      hide RecordInv;
      hide Mutate;
      RecoverStaysAway(s, op, snapshot);
    } else if op.Ingest? || op.Authorize? {
      QueueStaysAway(s, op, snapshot);
    } else if op.Claim? && Mutate(s, op).logged != [] {
      assert Mutate(s, op) == ClaimOp(s, op.check, op.deadline);
      hide Mutate;
      hide ClaimOp;
      ClaimCorrect(s, op.check, op.deadline);
      ClaimFrame(s, op.check, op.deadline);
    } else {
      hide PendingOk;
      hide ReleaseOk;
      OthersKeepQueue(s, op);
      hide Mutate;
    }
  }

  lemma ResolveStaysAway(s: State, op: Op, snapshot: Item)
    requires op.Resolve? && Resolvable(op.snapshot) && Resolvable(snapshot) && Delays(op)
    requires Away(snapshot, s) && ResolveOp(s, op.snapshot, op.result).Commit?
    ensures Away(snapshot, ResolveOp(s, op.snapshot, op.result).next)
  {
    hide Delays;
    hide Beyond;
    hide Apply;
    var i := FindEvent(s.pending, op.snapshot.event);
    if i < |s.pending| && s.pending[i] == op.snapshot && op.snapshot.event == snapshot.event {
      AttemptStaysBeyond(snapshot, op.snapshot, op.result);
    }
    ApplyKeepsEvent(op.snapshot, op.result);
  }

  lemma ApplyKeepsEvent(x: Item, r: Resolution)
    ensures Apply(x, r).event == x.event
  {
  }

  lemma RecoverStaysAway(s: State, op: Op, snapshot: Item)
    requires op.Recover? && Resolvable(snapshot) && RecoverOp(s, op.version, op.now).Commit?
    requires Away(snapshot, s) && (op.version == snapshot.event.version ==> !Restores(snapshot, op.now))
    ensures Away(snapshot, RecoverOp(s, op.version, op.now).next)
  {
    hide Restores;
    hide Beyond;
    var i := FindVersion(s.pending, op.version);
    if i < |s.pending| && s.pending[i].event == snapshot.event {
      RecoveryStaysBeyond(snapshot, s.pending[i], op.now);
    }
  }

  lemma QueueStaysAway(s: State, op: Op, snapshot: Item)
    requires (op.Ingest? || op.Authorize?) && Mutate(s, op).Commit? && Resolvable(snapshot) && Away(snapshot, s)
    ensures Away(snapshot, Mutate(s, op).next)
  {
    hide Soonest;
    if op.Ingest? {
      assert Mutate(s, op) == IngestOp(s, op.event);
      hide Mutate;
      hide Known;
      hide Beyond;
    } else {
      assert Mutate(s, op) == AuthorizeOp(s, op.expected, op.now);
      hide Mutate;
      ApprovalStaysAway(s, op, snapshot);
      hide AuthorizeOp;
      hide Away;
    }
  }

  lemma ApprovalStaysAway(s: State, op: Op, snapshot: Item)
    requires op.Authorize? && AuthorizeOp(s, op.expected, op.now).Commit?
    requires Resolvable(snapshot) && Away(snapshot, s)
    ensures Away(snapshot, AuthorizeOp(s, op.expected, op.now).next)
  {
    hide Snapshot;
    hide Claimable;
    hide MayReplace;
    hide ValidAuth;
    hide Waiting;
    var i := FindVersion(s.pending, op.expected.basis.candidate.serving.pair.version);
    if i < |s.pending| {
      var x := s.pending[i];
      assert forall a :: Soonest(x.(status := ApprovedForRelease, auth := a), snapshot) >= Soonest(x, snapshot);
    }
  }

  lemma {:induction false} StaysAway(w: World, ops: seq<Op>, snapshot: Item,
                                     digest: Digester, limit: nat)
    requires Inv(w) && FitsRun(w, ops) && Resolvable(snapshot) && Away(snapshot, w.s) && Quiet(snapshot, ops)
    requires AllByTicks(ops, digest, limit)
    ensures Away(snapshot, Steps(w, ops).s)
    decreases ops
  {
    hide Fits;
    hide Away;
    hide Restores;
    hide Mutate;
    hide Remember;
    hide MadeByTick;
    if ops != [] {
      assert RecordInv(w.s);
      hide RecordInv;
      hide Inv;
      if ops[0].Resolve? {
        DueMovesOn(ops[0], digest, limit);
      }
      if Mutate(w.s, ops[0]).Commit? {
        StepStaysAway(w.s, ops[0], snapshot);
      }
      StepKeepsInv(w, ops[0]);
      StaysAway(Step(w, ops[0]), ops[1..], snapshot, digest, limit);
    }
  }

  lemma FirstMovesAway(s: State, snapshot: Item, first: Resolution)
    requires PendingOk(s) && Resolvable(snapshot) && Delays(Resolve(snapshot, first))
    requires ResolveOp(s, snapshot, first).Commit? && ResolveOp(s, snapshot, first).logged != []
    ensures Away(snapshot, ResolveOp(s, snapshot, first).next)
  {
    hide ValidItem;
    hide Beyond;
    hide Apply;
    var i := FindEvent(s.pending, snapshot.event);
    assert s.pending[i] in s.pending;
    AttemptStaysBeyond(snapshot, snapshot, first);
  }

  lemma AwayIsSilent(s: State, snapshot: Item, r: Resolution)
    requires Away(snapshot, s)
    ensures ResolveOp(s, snapshot, r) == Silent(s)
  {
  }

  /**
   * Of all processors that read the same item, only the first to commit
   * changes anything: whatever fits and happens in between, a later commit for
   * the same snapshot does nothing, unless an operator recovered the version
   * at one of the readings that restore the item.
   */
  lemma SnapshotTransitionsOnce(w: World, snapshot: Item, first: Resolution, ops: seq<Op>, second: Resolution,
                                digest: Digester, limit: nat)
    requires Inv(w) && Resolvable(snapshot) && MadeByTick(Resolve(snapshot, first), digest, limit)
    requires ResolveOp(w.s, snapshot, first).Commit? && ResolveOp(w.s, snapshot, first).logged != []
    requires FitsRun(Step(w, Resolve(snapshot, first)), ops) && AllByTicks(ops, digest, limit) && Quiet(snapshot, ops)
    ensures var s := Steps(Step(w, Resolve(snapshot, first)), ops).s;
            ResolveOp(s, snapshot, second) == Silent(s)
  {
    hide Away;
    hide Quiet;
    hide Restores;
    var op := Resolve(snapshot, first);
    DueMovesOn(op, digest, limit);
    hide MadeByTick;
    assert PendingOk(w.s);
    StepKeepsInv(w, op);
    hide Inv;
    hide PendingOk;
    FirstMovesAway(w.s, snapshot, first);
    assert Mutate(w.s, op) == ResolveOp(w.s, snapshot, first);
    hide Mutate;
    hide ResolveOp;
    StaysAway(Step(w, op), ops, snapshot, digest, limit);
    hide Step;
    AwayIsSilent(Steps(Step(w, op), ops).s, snapshot, second);
  }

  // ----- the readings that restore an item ------------------------------------------------------

  lemma ResolveAt(w: World, i: nat, r: Resolution)
    requires PendingOk(w.s) && i < |w.s.pending| && Resolvable(w.s.pending[i])
    ensures var op := Resolve(w.s.pending[i], r);
            && ResolveOp(w.s, w.s.pending[i], r).logged != []
            && Fits(w.s, op) && Step(w, op).s.pending == w.s.pending[i := Apply(w.s.pending[i], r)]
  {
    hide ValidItem;
    EventAt(w.s.pending, i);
    assert Mutate(w.s, Resolve(w.s.pending[i], r)) == ResolveOp(w.s, w.s.pending[i], r);
    hide Mutate;
    hide Apply;
  }

  lemma RecoverAt(w: World, i: nat, reading: Time)
    requires PendingOk(w.s) && i < |w.s.pending| && w.s.pending[i].status == ResolutionBlocked
    ensures var x := w.s.pending[i];
            Step(w, Recover(x.event.version, reading)).s.pending == w.s.pending[i := Recovered(x, reading)]
  {
    hide ValidItem;
    WithVersionUnique(w.s.pending, i);
    var op := Recover(w.s.pending[i].event.version, reading);
    assert Mutate(w.s, op) == RecoverOp(w.s, op.version, reading);
    hide Mutate;
  }

  /** Ticks of processors that turn item i into y and touch nothing else in the queue. */
  ghost predicate Attempts(w: World, ops: seq<Op>, i: nat, y: Item,
                           digest: Digester, limit: nat)
    requires i < |w.s.pending|
  {
    && FitsRun(w, ops) && AllByTicks(ops, digest, limit) && (forall k :: 0 <= k < |ops| ==> ops[k].Resolve?)
    && Steps(w, ops).s.pending == w.s.pending[i := y]
  }

  lemma NoAttempts(w: World, i: nat, digest: Digester, limit: nat)
    requires i < |w.s.pending|
    ensures Attempts(w, [], i, w.s.pending[i], digest, limit)
  {
    assert Steps(w, []) == w && FitsRun(w, []);
  }

  /** One tick at item i, and then more of them. */
  lemma AttemptThen(w: World, op: Op, i: nat, x: Item, rest: seq<Op>, y: Item, digest: Digester, limit: nat)
    requires op.Resolve? && MadeByTick(op, digest, limit) && Fits(w.s, op)
    requires i < |w.s.pending| && Step(w, op).s.pending == w.s.pending[i := x]
    requires Attempts(Step(w, op), rest, i, y, digest, limit)
    ensures Attempts(w, [op] + rest, i, y, digest, limit)
  {
    hide Step;
    hide MadeByTick;
    hide Fits;
    assert ([op] + rest)[1..] == rest;
  }

  lemma TickMakes(x: Item, now: Time, f: Findings, later: Time, digest: Digester, limit: nat)
    requires Eligible(x, now) && now <= later
    ensures MadeByTick(Resolve(x, ResultOf(x, f, digest, later, limit)), digest, limit)
  {
    hide ResultOf;
    hide Eligible;
  }

  /** The item after n more failures. */
  function Failed(x: Item, n: nat, next: Time, error: string, limit: nat): Item {
    x.(status := if x.attempts + n >= limit then ResolutionBlocked else ResolutionRetry,
       attempts := x.attempts + n, nextAttempt := next, error := Some(error))
  }

  /** Ticks that fail n times, due at any time that the backoffs leave room for. */
  lemma {:induction false} FailTimes(w: World, i: nat, n: nat, next: Time, error: string,
                                     digest: Digester, limit: nat)
    returns (ops: seq<Op>)
    requires Inv(w) && i < |w.s.pending| && Resolvable(w.s.pending[i]) && n > 0 && w.s.pending[i].attempts + n <= limit
    requires next >= w.s.pending[i].nextAttempt + Waiting(w.s.pending[i].attempts, w.s.pending[i].attempts + n)
    ensures Attempts(w, ops, i, Failed(w.s.pending[i], n, next, error, limit), digest, limit)
    ensures ops != [] && ops[0].snapshot == w.s.pending[i]
    decreases n
  {
    hide Step;
    hide Inv;
    hide PendingOk;
    hide Backoff;
    hide Attempts;
    var x := w.s.pending[i];
    var f := Findings(None, None, None, error);
    var d := Backoff(x.attempts + 1) as real;
    var later := if n == 1 then next - d else x.nextAttempt;
    var r := ResultOf(x, f, digest, later, limit);
    var y := Failed(x, 1, later + d, error, limit);
    assert Apply(x, r) == y;
    assert n == 1 ==> Waiting(x.attempts + 1, x.attempts + 1) == 0.0;
    InvHasQueue(w);
    ResolveAt(w, i, r);
    StepKeepsInv(w, Resolve(x, r));
    hide Apply;
    hide ResolveOp;
    hide Fits;
    var v := Step(w, Resolve(x, r));
    var rest := [];
    if n == 1 {
      NoAttempts(v, i, digest, limit);
    } else {
      rest := FailTimes(v, i, n - 1, next, error, digest, limit);
    }
    var end := Failed(x, n, next, error, limit);
    assert v.s.pending[i] == y && (n == 1 ==> y == end) && (n > 1 ==> Failed(y, n - 1, next, error, limit) == end);
    TickMakes(x, x.nextAttempt, f, later, digest, limit);
    AttemptThen(w, Resolve(x, r), i, y, rest, end, digest, limit);
    ops := [Resolve(x, r)] + rest;
  }

  /** The tick of a lookup that finds a recipe but no image. */
  lemma BuildTick(w: World, i: nat, target: Item, c: BuildContract.Contract,
                  digest: Digester, limit: nat)
    returns (ops: seq<Op>)
    requires Inv(w) && i < |w.s.pending| && target.status == BuildRequired && ByAttempt(target)
    requires target.fingerprint == Some(digest(c, BuildContract.PROFILE_CI))
    requires var x := w.s.pending[i];
             && Resolvable(x) && x.nextAttempt + 900.0 <= target.nextAttempt
             && x.event == target.event && x.pair == target.pair && x.auth == target.auth && x.error == target.error
    ensures Attempts(w, ops, i, target, digest, limit)
  {
    hide Step;
    hide Inv;
    hide PendingOk;
    hide Attempts;
    var x := w.s.pending[i];
    var f := Findings(Some(c), None, None, "");
    var later := target.nextAttempt - 900.0;
    var r := ResultOf(x, f, digest, later, limit);
    assert Apply(x, r) == target;
    InvHasQueue(w);
    ResolveAt(w, i, r);
    hide Apply;
    hide ResolveOp;
    hide Fits;
    var v := Step(w, Resolve(x, r));
    NoAttempts(v, i, digest, limit);
    TickMakes(x, x.nextAttempt, f, later, digest, limit);
    AttemptThen(w, Resolve(x, r), i, target, [], target, digest, limit);
    ops := [Resolve(x, r)] + [];
  }

  lemma AttemptsThen(w: World, a: seq<Op>, i: nat, y: Item, b: seq<Op>, z: Item,
                     digest: Digester, limit: nat)
    requires i < |w.s.pending| && Attempts(w, a, i, y, digest, limit)
    requires Attempts(Steps(w, a), b, i, z, digest, limit)
    ensures Attempts(w, a + b, i, z, digest, limit)
  {
    hide MadeByTick;
    FitsConcat(w, a, b);
    StepsConcat(w, a, b);
    hide FitsRun;
    hide Steps;
  }

  /** From a recovered item, ticks bring back a snapshot that the reading restores. */
  lemma ReachAgain(u: World, i: nat, snapshot: Item, reading: Time,
                   digest: Digester, limit: nat)
    returns (ops: seq<Op>)
    requires Inv(u) && i < |u.s.pending| && Restores(snapshot, reading)
    requires Resolvable(snapshot) && ByTicks(snapshot, digest, limit)
    requires u.s.pending[i] == Recovered(snapshot, reading)
    ensures Attempts(u, ops, i, snapshot, digest, limit)
  {
    hide Inv;
    hide Attempts;
    hide Backoff;
    RestoresMeans(snapshot, reading);
    hide Restores;
    var x := Recovered(snapshot, reading);
    if ByRecovery(snapshot) {
      assert snapshot == x;
      NoAttempts(u, i, digest, limit);
      ops := [];
    } else if snapshot.status == ResolutionRetry {
      var error := snapshot.error.value;
      assert Failed(x, snapshot.attempts, snapshot.nextAttempt, error, limit) == snapshot;
      ops := FailTimes(u, i, snapshot.attempts, snapshot.nextAttempt, error, digest, limit);
    } else {
      var c :| snapshot.fingerprint == Some(digest(c, BuildContract.PROFILE_CI));
      if snapshot.error.None? {
        ops := BuildTick(u, i, snapshot, c, digest, limit);
      } else {
        ops := FailThenBuild(u, i, snapshot, c, digest, limit);
      }
    }
  }

  /** A build request that carries an error: one failure, and then the lookup. */
  lemma FailThenBuild(u: World, i: nat, target: Item, c: BuildContract.Contract,
                      digest: Digester, limit: nat)
    returns (ops: seq<Op>)
    requires Inv(u) && i < |u.s.pending| && limit > 1
    requires target.status == BuildRequired && ByAttempt(target) && target.error.Some?
    requires target.fingerprint == Some(digest(c, BuildContract.PROFILE_CI))
    requires var x := u.s.pending[i];
             && ByRecovery(x) && x.nextAttempt + 930.0 <= target.nextAttempt
             && x.event == target.event && x.pair == target.pair && x.auth == target.auth
    ensures Attempts(u, ops, i, target, digest, limit)
  {
    hide Inv;
    hide Fits;
    hide Step;
    var x := u.s.pending[i];
    var next := x.nextAttempt + 30.0;
    assert Waiting(1, 1) == 0.0 && Backoff(1) == 30;
    var middle := Failed(x, 1, next, target.error.value, limit);
    var first := FailTimes(u, i, 1, next, target.error.value, digest, limit);
    var v := Steps(u, first);
    StepsKeepInv(u, first);
    var second := BuildTick(v, i, target, c, digest, limit);
    AttemptsThen(u, first, i, middle, second, target, digest, limit);
    ops := first + second;
  }

  /** The recoveries of this version in a list are all at this reading. */
  ghost predicate RecoversAt(ops: seq<Op>, version: nat, reading: Time) {
    forall k :: 0 <= k < |ops| && ops[k].Recover? && ops[k].version == version ==> ops[k].now == reading
  }

  /**
   * The first processor transitions the snapshot, and after further closures,
   * whose recoveries of the version are all at this reading, the second one
   * transitions it again, whatever it found.
   */
  ghost predicate ComesBack(w: World, snapshot: Item, reading: Time, first: Resolution, ops: seq<Op>,
                            digest: Digester, limit: nat)
  {
    var v := Step(w, Resolve(snapshot, first));
    && MadeByTick(Resolve(snapshot, first), digest, limit) && AllByTicks(ops, digest, limit)
    && ResolveOp(w.s, snapshot, first).logged != []
    && FitsRun(v, ops) && RecoversAt(ops, snapshot.event.version, reading)
    && forall second :: ResolveOp(Steps(v, ops).s, snapshot, second).logged != []
  }

  /** Where the snapshot is in the queue, the second processor transitions it again, whatever it found. */
  lemma PresentTransitions(w: World, snapshot: Item, second: Resolution)
    requires Inv(w) && Resolvable(snapshot)
    ensures snapshot in w.s.pending <==> ResolveOp(w.s, snapshot, second).logged != []
  {
    InvHasQueue(w);
    hide Inv;
    hide PendingOk;
    if snapshot in w.s.pending {
      var i :| 0 <= i < |w.s.pending| && w.s.pending[i] == snapshot;
      ResolveAt(w, i, second);
    }
  }

  /** Ticks fail until the item is blocked, and an operator recovers it. */
  lemma BlockThenRecover(w: World, i: nat, reading: Time,
                         digest: Digester, limit: nat)
    returns (ops: seq<Op>)
    requires Inv(w) && i < |w.s.pending| && Resolvable(w.s.pending[i]) && w.s.pending[i].attempts < limit
    ensures ops != [] && ops[0].Resolve? && ops[0].snapshot == w.s.pending[i]
    ensures FitsRun(w, ops) && AllByTicks(ops, digest, limit) && RecoversAt(ops, w.s.pending[i].event.version, reading)
    ensures Steps(w, ops).s.pending == w.s.pending[i := Recovered(w.s.pending[i], reading)]
  {
    hide Inv;
    hide Step;
    hide Fits;
    hide Waiting;
    hide PendingOk;
    var x := w.s.pending[i];
    var n := limit - x.attempts;
    var next := x.nextAttempt + Waiting(x.attempts, limit);
    var fails := FailTimes(w, i, n, next, "", digest, limit);
    var v := Steps(w, fails);
    var blocked := Failed(x, n, next, "", limit);
    StepsKeepInv(w, fails);
    InvHasQueue(v);
    RecoverAt(v, i, reading);
    var recover := Recover(x.event.version, reading);
    RecoverFits(v.s, recover);
    assert Recovered(blocked, reading) == Recovered(x, reading);
    ops := fails + [recover];
    assert MadeByTick(recover, digest, limit);
    hide MadeByTick;
    StepsAppend(w, fails, recover);
    FitsAppend(w, fails, recover);
    hide Steps;
    hide FitsRun;
  }

  lemma RecoverFits(s: State, op: Op)
    requires op.Recover?
    ensures Fits(s, op)
  {
  }

  lemma FitsAppend(w: World, ops: seq<Op>, op: Op)
    requires FitsRun(w, ops) && Fits(Steps(w, ops).s, op)
    ensures FitsRun(w, ops + [op])
  {
    hide Step;
    hide Fits;
    var v := Steps(w, ops);
    assert FitsRun(Step(v, op), []) && [op][1..] == [];
    FitsConcat(w, ops, [op]);
  }

  /** At every such reading it really happens, by ordinary ticks below one attempt limit. */
  lemma RestoredTransitionsAgain(w: World, snapshot: Item, reading: Time,
                                 digest: Digester, limit: nat)
    returns (first: Resolution, ops: seq<Op>)
    requires Inv(w) && snapshot in w.s.pending && Resolvable(snapshot) && ByTicks(snapshot, digest, limit)
    requires Restores(snapshot, reading)
    ensures ComesBack(w, snapshot, reading, first, ops, digest, limit)
  {
    hide Inv;
    hide Step;
    hide Fits;
    hide MadeByTick;
    hide Restores;
    var i :| 0 <= i < |w.s.pending| && w.s.pending[i] == snapshot;
    var start := BlockThenRecover(w, i, reading, digest, limit);
    var u := Steps(w, start);
    StepsKeepInv(w, start);
    var back := ReachAgain(u, i, snapshot, reading, digest, limit);
    FitsConcat(w, start, back);
    StepsConcat(w, start, back);
    var all := start + back;
    assert all[0] == start[0];
    first, ops := all[0].result, all[1..];
    PresentTransitions(w, snapshot, first);
    var end := Steps(w, all);
    assert end.s.pending[i] == snapshot;
    StepsKeepInv(w, all);
    forall second
      ensures ResolveOp(end.s, snapshot, second).logged != []
    {
      PresentTransitions(end, snapshot, second);
    }
  }

  /**
   * Exactly those readings: with ordinary ticks, a recovery at this reading
   * can make a second processor transition the snapshot again if and only if
   * the reading restores the item.
   */
  lemma RestoresExactly(w: World, snapshot: Item, reading: Time,
                        digest: Digester, limit: nat)
    requires Inv(w) && snapshot in w.s.pending && Resolvable(snapshot) && ByTicks(snapshot, digest, limit)
    ensures Restores(snapshot, reading) <==>
              exists first, ops :: ComesBack(w, snapshot, reading, first, ops, digest, limit)
  {
    hide Inv;
    hide Restores;
    hide ByTicks;
    hide ComesBack;
    if Restores(snapshot, reading) {
      var first, ops := RestoredTransitionsAgain(w, snapshot, reading, digest, limit);
    } else {
      forall first, ops
        ensures !ComesBack(w, snapshot, reading, first, ops, digest, limit)
      {
        NeverComesBack(w, snapshot, reading, first, ops, digest, limit);
      }
    }
  }

  lemma NeverComesBack(w: World, snapshot: Item, reading: Time, first: Resolution, ops: seq<Op>,
                       digest: Digester, limit: nat)
    requires Inv(w) && Resolvable(snapshot) && !Restores(snapshot, reading)
    ensures !ComesBack(w, snapshot, reading, first, ops, digest, limit)
  {
    hide Inv;
    hide Restores;
    hide MadeByTick;
    hide FitsRun;
    hide Steps;
    hide Step;
    hide ResolveOp;
    if ComesBack(w, snapshot, reading, first, ops, digest, limit) {
      var v := Step(w, Resolve(snapshot, first));
      ResolveCommits(w.s, snapshot, first);
      SnapshotTransitionsOnce(w, snapshot, first, ops, first, digest, limit);
    }
  }

  lemma ResolveCommits(s: State, snapshot: Item, r: Resolution)
    requires Resolvable(snapshot)
    ensures ResolveOp(s, snapshot, r).Commit? && Fits(s, Resolve(snapshot, r))
  {
  }

  lemma InvHasQueue(w: World)
    requires Inv(w)
    ensures PendingOk(w.s)
  {
  }

  // ----- a tick whose clock goes back -----------------------------------------------------------

  /** The result of a tick leaves its item as it was. */
  predicate LeavesAsIs(x: Item, f: Findings, digest: Digester,
                       later: Time)
  {
    && x.status == BuildRequired && ByAttempt(x)
    && f.contract.Some? && f.oldImage.None? && f.newImage.None?
    && x.fingerprint.value == digest(f.contract.value, BuildContract.PROFILE_CI)
    && later == x.nextAttempt - 900.0
  }

  /**
   * Without the assumption about a tick's own clock no recovery is needed: with
   * nothing in between, the second processor transitions the item again exactly
   * when the first repeated a build request at a reading that lies 900 seconds
   * before the due time it had already found passed.
   */
  lemma ClockBackTransitionsAgain(w: World, snapshot: Item, f: Findings,
                                  digest: Digester, later: Time,
                                  limit: nat, second: Resolution)
    requires Inv(w) && snapshot in w.s.pending && Resolvable(snapshot)
    ensures var v := Step(w, Resolve(snapshot, ResultOf(snapshot, f, digest, later, limit)));
            ResolveOp(v.s, snapshot, second).logged != [] <==> LeavesAsIs(snapshot, f, digest, later)
  {
    var r := ResultOf(snapshot, f, digest, later, limit);
    var v := Step(w, Resolve(snapshot, r));
    hide Step;
    hide Inv;
    hide PendingOk;
    hide ResolveOp;
    hide Fits;
    var i :| 0 <= i < |w.s.pending| && w.s.pending[i] == snapshot;
    RepeatMeans(snapshot, f, digest, later, limit);
    ApplyKeepsEvent(snapshot, r);
    hide Apply;
    hide ResultOf;
    hide LeavesAsIs;
    InvHasQueue(w);
    ResolveAt(w, i, r);
    StepKeepsInv(w, Resolve(snapshot, r));
    InvHasQueue(v);
    OneOfEvent(v.s, i, snapshot);
    PresentTransitions(v, snapshot, second);
  }

  lemma RepeatMeans(x: Item, f: Findings, digest: Digester, later: Time, limit: nat)
    requires Resolvable(x)
    ensures Apply(x, ResultOf(x, f, digest, later, limit)) == x <==> LeavesAsIs(x, f, digest, later)
  {
  }

  lemma OneOfEvent(s: State, i: nat, x: Item)
    requires PendingOk(s) && i < |s.pending| && s.pending[i].event == x.event
    ensures x in s.pending <==> s.pending[i] == x
  {
    hide ValidItem;
  }
}
