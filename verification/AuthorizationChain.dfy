/** Successive authorizations over a whole run, whatever clocks their writers use. */
module AuthorizationChain {
  import opened Bounded
  import opened ReleaseState
  import opened Authorization
  import opened Mutators
  import opened Lifecycle
  import opened Machine

  function VersionOf(a: Auth): nat {
    a.evidence.basis.candidate.serving.pair.version
  }

  /** The latest authorization ever written for a version. */
  function LatestFor(auths: seq<Auth>, version: nat): Option<Auth> {
    if auths == [] then None
    else if VersionOf(auths[|auths| - 1]) == version then Some(auths[|auths| - 1])
    else LatestFor(auths[..|auths| - 1], version)
  }

  /** The hash that link i has to name: the previous link of the same version, if any. */
  function Predecessor(auths: seq<Auth>, i: nat): Option<Hash>
    requires i < |auths|
  {
    if i > 0 && VersionOf(auths[i - 1]) == VersionOf(auths[i]) then Some(auths[i - 1].hash) else None
  }

  /** Evidence of the right form for the highest version, at most a day old, and a window of a quarter of an hour. */
  ghost predicate WellMade(a: Auth) {
    && a.hash == Of(a.evidence)
    && a.evidence.wellFormed && a.evidence.basis.highest == VersionOf(a)
    && 0.0 <= a.authorizedAt - a.evidence.created <= 86400.0
    && a.expiresAt == a.authorizedAt + 900.0
  }

  /** Authorizations never go back to an older version. */
  ghost predicate Ordered(auths: seq<Auth>) {
    forall i, j :: 0 <= i < j < |auths| ==> VersionOf(auths[i]) <= VersionOf(auths[j])
  }

  /** Those of one version have disjoint, increasing windows, with fresh evidence for each. */
  ghost predicate Disjoint(auths: seq<Auth>) {
    forall i, j :: 0 <= i < j < |auths| && VersionOf(auths[i]) == VersionOf(auths[j]) ==>
      auths[i].expiresAt <= auths[j].evidence.created
  }

  /** Each names the previous one of its version, and the first names none. */
  ghost predicate Linked(auths: seq<Auth>) {
    forall i :: 0 <= i < |auths| ==> auths[i].evidence.supersedes == Predecessor(auths, i)
  }

  /** An approval is replaced on the same basis, and by another release run. */
  predicate Renews(a: Auth, previous: Auth) {
    a.evidence.runId != previous.evidence.runId && a.evidence.basis == previous.evidence.basis
  }

  ghost predicate Renewed(auths: seq<Auth>) {
    forall i :: 0 < i < |auths| && VersionOf(auths[i - 1]) == VersionOf(auths[i]) ==> Renews(auths[i], auths[i - 1])
  }

  ghost predicate Chained(auths: seq<Auth>) {
    && (forall i :: 0 <= i < |auths| ==> WellMade(auths[i]))
    && Ordered(auths) && Disjoint(auths) && Linked(auths) && Renewed(auths)
  }

  ghost predicate ChainOk(w: World) {
    && Chained(w.h.auths)
    && (forall i :: 0 <= i < |w.h.auths| ==> VersionOf(w.h.auths[i]) <= w.s.highest)
    && (forall x :: x in w.s.pending ==> x.auth == LatestFor(w.h.auths, x.event.version))
    && (forall i :: 0 <= i < |w.h.claims| ==> w.h.claims[i].auth in w.h.auths)
  }

  lemma {:induction false} LatestIsLast(auths: seq<Auth>, version: nat)
    requires forall i, j :: 0 <= i < j < |auths| ==> VersionOf(auths[i]) <= VersionOf(auths[j])
    requires forall i :: 0 <= i < |auths| ==> VersionOf(auths[i]) <= version
    ensures LatestFor(auths, version).Some? <==> auths != [] && VersionOf(auths[|auths| - 1]) == version
    ensures LatestFor(auths, version).Some? ==> LatestFor(auths, version) == Some(auths[|auths| - 1])
  {
    if auths != [] && VersionOf(auths[|auths| - 1]) != version {
      assert forall k :: 0 <= k < |auths| ==> VersionOf(auths[k]) < version;
      LatestAbsent(auths[..|auths| - 1], version);
    }
  }

  lemma {:induction false} LatestAbsent(auths: seq<Auth>, version: nat)
    requires forall k :: 0 <= k < |auths| ==> VersionOf(auths[k]) != version
    ensures LatestFor(auths, version) == None
  {
    if auths != [] {
      LatestAbsent(auths[..|auths| - 1], version);
    }
  }

  lemma {:induction false} LatestIsMember(auths: seq<Auth>, version: nat)
    ensures LatestFor(auths, version).Some? ==> LatestFor(auths, version).value in auths
  {
    if auths != [] && VersionOf(auths[|auths| - 1]) != version {
      LatestIsMember(auths[..|auths| - 1], version);
    }
  }

  /** A committed authorize call writes nothing, or extends the chain by one link. */
  lemma AuthorizeExtends(w: World, expected: Evidence, now: Time)
    requires ChainOk(w)
    ensures var v := Step(w, Authorize(expected, now));
            v.h.auths == w.h.auths
            || (v.h.auths == w.h.auths + [Auth(expected, Of(expected), now, now + TTL)] && Chained(v.h.auths)
                && expected.basis.candidate.serving.pair.version == w.s.highest)
  {
    var op := Authorize(expected, now);
    AuthorizeRemembers(w, expected, now);
    var r := AuthorizeOp(w.s, expected, now);
    hide Step;
    hide ChainOk;
    hide Chained;
    if r.Commit? && r.logged != [] {
      var i := AuthorizeMeans(w.s, expected, now);
      ChainExtends(w, Auth(expected, Of(expected), now, now + TTL), i);
    }
    hide AuthorizeOp;
  }

  lemma AuthorizeRemembers(w: World, expected: Evidence, now: Time)
    ensures var r := AuthorizeOp(w.s, expected, now);
            var v := Step(w, Authorize(expected, now));
            && v.s == (if r.Commit? then r.next else w.s)
            && v.h.auths == (if r.Commit? && r.logged != []
                             then w.h.auths + [Auth(expected, Of(expected), now, now + TTL)] else w.h.auths)
            && v.h.claims == w.h.claims
            && (r.Commit? && r.logged == [] ==> r.next == w.s)
  {
    var r := AuthorizeOp(w.s, expected, now);
    assert Mutate(w.s, Authorize(expected, now)) == r;
    hide Mutate;
    assert r.Commit? && r.logged != [] ==> r.logged[0].Authorized?;
    assert r.Commit? && r.logged == [] ==> r.next == w.s;
    hide AuthorizeOp;
  }

  lemma ChainExtends(w: World, a: Auth, i: nat)
    requires ChainOk(w) && WellMade(a) && i < |w.s.pending|
    requires VersionOf(a) == w.s.pending[i].event.version == w.s.highest
    requires w.s.pending[i].auth.None? ==> a.evidence.supersedes == None
    requires w.s.pending[i].auth.Some? ==>
               a.evidence.supersedes == Some(w.s.pending[i].auth.value.hash)
               && w.s.pending[i].auth.value.expiresAt <= a.evidence.created && Renews(a, w.s.pending[i].auth.value)
    ensures Chained(w.h.auths + [a])
  {
    assert w.s.pending[i] in w.s.pending;
    LatestIsLast(w.h.auths, w.s.highest);
    ExtendChain(w.h.auths, a, w.s.pending[i].auth);
    hide Chained;
  }

  lemma AuthorizeMeans(s: State, expected: Evidence, now: Time) returns (i: nat)
    requires AuthorizeOp(s, expected, now).Commit? && AuthorizeOp(s, expected, now).logged != []
    ensures i < |s.pending|
    ensures s.pending[i].event.version == s.highest == expected.basis.candidate.serving.pair.version
    ensures WellMade(Auth(expected, Of(expected), now, now + TTL))
    ensures var previous := s.pending[i].auth;
            expected.supersedes == (if previous.Some? then Some(previous.value.hash) else None)
            && (previous.Some? ==>
                  && previous.value.expiresAt <= expected.created
                  && expected.runId != previous.value.evidence.runId
                  && expected.basis == previous.value.evidence.basis)
    ensures var r := AuthorizeOp(s, expected, now);
            && r.logged[0].Authorized?
            && r.next.pending == s.pending[i := s.pending[i].(status := ApprovedForRelease,
                                               auth := Some(Auth(expected, Of(expected), now, now + TTL)))]
            && r.next.highest == s.highest
  {
    i := FindVersion(s.pending, expected.basis.candidate.serving.pair.version);
  }

  lemma ExtendDisjoint(auths: seq<Auth>, a: Auth)
    requires Disjoint(auths) && Ordered(auths) && forall i :: 0 <= i < |auths| ==> WellMade(auths[i])
    requires forall i :: 0 <= i < |auths| ==> VersionOf(auths[i]) <= VersionOf(a)
    requires auths != [] && VersionOf(auths[|auths| - 1]) == VersionOf(a) ==>
               auths[|auths| - 1].expiresAt <= a.evidence.created
    ensures Disjoint(auths + [a])
  {
    forall i | 0 <= i < |auths| && VersionOf(auths[i]) == VersionOf(a)
      ensures auths[i].expiresAt <= a.evidence.created
    {
      var last := auths[|auths| - 1];
      assert VersionOf(auths[i]) <= VersionOf(last);
      assert WellMade(last);
    }
  }

  lemma ExtendLinked(auths: seq<Auth>, a: Auth)
    requires Linked(auths) && a.evidence.supersedes == Predecessor(auths + [a], |auths|)
    ensures Linked(auths + [a])
  {
    var all := auths + [a];
    forall i | 0 <= i < |auths|
      ensures all[i].evidence.supersedes == Predecessor(all, i)
    {
      assert all[i] == auths[i] && Predecessor(auths, i) == Predecessor(all, i);
    }
  }

  lemma ExtendChain(auths: seq<Auth>, a: Auth, previous: Option<Auth>)
    requires Chained(auths) && WellMade(a)
    requires forall i :: 0 <= i < |auths| ==> VersionOf(auths[i]) <= VersionOf(a)
    requires previous == if auths != [] && VersionOf(auths[|auths| - 1]) == VersionOf(a)
                         then Some(auths[|auths| - 1]) else None
    requires previous.None? ==> a.evidence.supersedes == None
    requires previous.Some? ==>
               a.evidence.supersedes == Some(previous.value.hash) && previous.value.expiresAt <= a.evidence.created
               && Renews(a, previous.value)
    ensures Chained(auths + [a])
  {
    ExtendDisjoint(auths, a);
    ExtendRenewed(auths, a);
    hide Renewed;
    hide Renews;
    ExtendLinked(auths, a);
    ExtendOrdered(auths, a);
    hide Disjoint;
    hide Linked;
    hide Ordered;
    hide WellMade;
  }

  lemma ExtendRenewed(auths: seq<Auth>, a: Auth)
    requires Renewed(auths)
    requires auths != [] && VersionOf(auths[|auths| - 1]) == VersionOf(a) ==> Renews(a, auths[|auths| - 1])
    ensures Renewed(auths + [a])
  {
    hide Renews;
    var all := auths + [a];
    forall i | 0 < i < |all| && VersionOf(all[i - 1]) == VersionOf(all[i])
      ensures Renews(all[i], all[i - 1])
    {
      assert i < |auths| ==> all[i] == auths[i] && all[i - 1] == auths[i - 1];
    }
  }

  lemma ExtendOrdered(auths: seq<Auth>, a: Auth)
    requires Ordered(auths) && forall i :: 0 <= i < |auths| ==> VersionOf(auths[i]) <= VersionOf(a)
    ensures Ordered(auths + [a])
  {
  }

  /** Only the authorize call changes the approval of a queued item. */
  ghost predicate SameApprovals(w: World, v: World) {
    && v.h.auths == w.h.auths && w.s.highest <= v.s.highest
    && (forall x :: x in v.s.pending ==>
          (x.auth.None? && x.event.version > w.s.highest)
          || exists y :: y in w.s.pending && y.event == x.event && y.auth == x.auth)
  }

  lemma OthersKeepAuths(w: World, op: Op)
    requires !op.Authorize?
    ensures Step(w, op).h.auths == w.h.auths
  {
    hide Mutate;
  }

  lemma ControllersAligned(s: State, op: Op)
    requires RecordInv(s) && Fits(s, op) && Mutate(s, op).Commit?
    requires !ChangesQueue(op)
    ensures op.Claim? && Mutate(s, op).logged != [] ==> Mutate(s, op).next.pending == []
    ensures !(op.Claim? && Mutate(s, op).logged != []) ==> Mutate(s, op).next.pending == s.pending
    ensures s.highest <= Mutate(s, op).next.highest
  {
    if op.Claim? && Mutate(s, op).logged != [] {
      ClaimCorrect(s, op.check, op.deadline);
    }
  }

  lemma OthersKeepApprovals(w: World, op: Op)
    requires RecordInv(w.s) && Fits(w.s, op) && !op.Authorize?
    ensures SameApprovals(w, Step(w, op))
  {
    OthersKeepAuths(w, op);
    if Mutate(w.s, op).Commit? {
      if ChangesQueue(op) {
        QueueAligned(w.s, op);
        AlignedApprovals(w, op, Step(w, op));
      } else {
        ControllersAligned(w.s, op);
      }
    }
    hide Mutate;
    hide Remember;
  }

  lemma AlignedApprovals(w: World, op: Op, v: World)
    requires Aligned(w.s, op, v.s) && !op.Authorize? && v.h.auths == w.h.auths
    ensures SameApprovals(w, v)
  {
    forall x | x in v.s.pending
      ensures (x.auth.None? && x.event.version > w.s.highest)
              || exists y :: y in w.s.pending && y.event == x.event && y.auth == x.auth
    {
      var k :| 0 <= k < |v.s.pending| && v.s.pending[k] == x;
      assert k < |w.s.pending| ==> w.s.pending[k] in w.s.pending;
    }
  }

  lemma AuthorizeKeepsChain(w: World, expected: Evidence, now: Time)
    requires PendingOk(w.s) && ChainOk(w)
    ensures ChainOk(Step(w, Authorize(expected, now)))
  {
    AuthorizeExtends(w, expected, now);
    AuthorizeRemembers(w, expected, now);
    var v := Step(w, Authorize(expected, now));
    var r := AuthorizeOp(w.s, expected, now);
    hide Step;
    hide Chained;
    if r.Commit? && r.logged != [] {
      var i := AuthorizeMeans(w.s, expected, now);
      var a := Auth(expected, Of(expected), now, now + TTL);
      hide AuthorizeOp;
      OthersDiffer(w.s, i);
      hide PendingOk;
      QueueUsesLatest(w, i, a, r.next.pending);
      NewLinkKeepsChain(w, a, v);
    } else {
      UnchangedKeepsChain(w, v);
      hide AuthorizeOp;
    }
    hide ChainOk;
  }

  lemma UnchangedKeepsChain(w: World, v: World)
    requires ChainOk(w) && v.s == w.s && v.h.auths == w.h.auths && v.h.claims == w.h.claims
    ensures ChainOk(v)
  {
  }

  lemma OthersDiffer(s: State, i: nat)
    requires PendingOk(s) && i < |s.pending|
    ensures forall k :: 0 <= k < |s.pending| && k != i ==> s.pending[k].event.version != s.pending[i].event.version
  {
    hide ValidItem;
  }

  lemma NewLinkKeepsChain(w: World, a: Auth, v: World)
    requires ChainOk(w) && v.h.auths == w.h.auths + [a] && Chained(v.h.auths)
    requires VersionOf(a) <= w.s.highest == v.s.highest && v.h.claims == w.h.claims
    requires forall x :: x in v.s.pending ==> x.auth == LatestFor(v.h.auths, x.event.version)
    ensures ChainOk(v)
  {
    hide Chained;
  }

  lemma QueueUsesLatest(w: World, i: nat, a: Auth, pending: seq<Item>)
    requires ChainOk(w) && i < |w.s.pending| && VersionOf(a) == w.s.pending[i].event.version
    requires forall k :: 0 <= k < |w.s.pending| && k != i ==> w.s.pending[k].event.version != VersionOf(a)
    requires pending == w.s.pending[i := w.s.pending[i].(status := ApprovedForRelease, auth := Some(a))]
    ensures forall x :: x in pending ==> x.auth == LatestFor(w.h.auths + [a], x.event.version)
  {
    hide Chained;
    assert (w.h.auths + [a])[..|w.h.auths|] == w.h.auths;
    forall x | x in pending
      ensures x.auth == LatestFor(w.h.auths + [a], x.event.version)
    {
      var k :| 0 <= k < |pending| && pending[k] == x;
      assert k != i ==> x in w.s.pending;
    }
  }

  lemma StepKeepsChain(w: World, op: Op)
    requires RecordInv(w.s) && ChainOk(w) && Fits(w.s, op)
    ensures ChainOk(Step(w, op))
  {
    if op.Authorize? {
      AuthorizeKeepsChain(w, op.expected, op.now);
    } else {
      OthersKeepApprovals(w, op);
      ClaimsUseLatest(w, op);
      KeptApprovalsKeepChain(w, Step(w, op));
    }
  }

  lemma KeptApprovalsKeepChain(w: World, v: World)
    requires ChainOk(w) && SameApprovals(w, v)
    requires v.h.claims == w.h.claims
             || (|v.h.claims| == |w.h.claims| + 1 && v.h.claims[..|w.h.claims|] == w.h.claims
                 && v.h.claims[|w.h.claims|].auth in w.h.auths)
    ensures ChainOk(v)
  {
    hide Chained;
    forall x | x in v.s.pending
      ensures x.auth == LatestFor(v.h.auths, x.event.version)
    {
      if x.event.version > w.s.highest {
        LatestAbsent(w.h.auths, x.event.version);
      }
    }
  }

  /** A claim uses the latest authorization that was written for its version. */
  lemma ClaimsUseLatest(w: World, op: Op)
    requires RecordInv(w.s) && Fits(w.s, op)
    requires forall x :: x in w.s.pending ==> x.auth == LatestFor(w.h.auths, x.event.version)
    ensures var v := Step(w, op);
            v.h.claims == w.h.claims
            || (|v.h.claims| == |w.h.claims| + 1 && v.h.claims[..|w.h.claims|] == w.h.claims
                && v.h.claims[|w.h.claims|].auth in w.h.auths
                && LatestFor(w.h.auths, w.s.highest) == Some(v.h.claims[|w.h.claims|].auth))
  {
    if op.Claim? && Mutate(w.s, op).Commit? && Mutate(w.s, op).logged != [] {
      assert Mutate(w.s, op) == ClaimOp(w.s, op.check, op.deadline);
      hide Mutate;
      ClaimUsesLatest(w, op.check, op.deadline);
      hide RecordInv;
      hide LatestFor;
      ClaimStep(w, op);
      hide ClaimOp;
      hide Step;
    } else {
      OthersKeepClaims(w, op);
      hide Step;
    }
  }

  lemma ClaimUsesLatest(w: World, check: Time, deadline: Time)
    requires RecordInv(w.s) && ClaimOp(w.s, check, deadline).Commit? && ClaimOp(w.s, check, deadline).logged != []
    requires forall x :: x in w.s.pending ==> x.auth == LatestFor(w.h.auths, x.event.version)
    ensures var r := ClaimOp(w.s, check, deadline);
            && r.logged[0].Started? && r.next.active.Some?
            && r.next.active.value.auth in w.h.auths
            && LatestFor(w.h.auths, w.s.highest) == Some(r.next.active.value.auth)
  {
    ClaimCorrect(w.s, check, deadline);
    LatestIsMember(w.h.auths, w.s.highest);
  }

  lemma OthersKeepClaims(w: World, op: Op)
    requires Mutate(w.s, op).Commit? && op.Claim? ==> Mutate(w.s, op).logged == []
    ensures Step(w, op).h.claims == w.h.claims
  {
    StartedOnlyByClaim(w.s, op);
    hide Mutate;
  }

  lemma StartedOnlyByClaim(s: State, op: Op)
    ensures Mutate(s, op).Commit? && !op.Claim? && Mutate(s, op).logged != [] ==> !Mutate(s, op).logged[0].Started?
  {
  }

  /** No evidence record is authorized twice and no two approval windows of a version overlap. */
  lemma NeverAuthorizedTwice(w: World, i: nat, j: nat)
    requires ChainOk(w) && i < j < |w.h.auths|
    ensures w.h.auths[i].evidence != w.h.auths[j].evidence && w.h.auths[i].hash != w.h.auths[j].hash
    ensures VersionOf(w.h.auths[i]) == VersionOf(w.h.auths[j]) ==>
              w.h.auths[i].authorizedAt < w.h.auths[i].expiresAt <= w.h.auths[j].authorizedAt
  {
    assert WellMade(w.h.auths[i]) && WellMade(w.h.auths[j]);
  }

  /** Repeating an authorize call with the evidence already written never extends or duplicates it. */
  lemma RetryChangesNothing(w: World, expected: Evidence, first: Time, again: Time)
    requires Mutate(w.s, Authorize(expected, first)).Commit?
    ensures var v := Step(w, Authorize(expected, first));
            Step(v, Authorize(expected, again)).s == v.s
            && Step(v, Authorize(expected, again)).h.auths == v.h.auths
  {
    var v := Step(w, Authorize(expected, first));
    AuthorizedRemembers(w.s, expected, first);
    RetryIsSilent(v.s, expected, again);
    assert Step(w, Authorize(expected, first)).s == AuthorizeOp(w.s, expected, first).next;
    hide AuthorizeOp;
  }

  /** After an authorize call the queued item carries exactly that evidence. */
  ghost predicate Carries(s: State, expected: Evidence) {
    var i := FindVersion(s.pending, expected.basis.candidate.serving.pair.version);
    i < |s.pending| && s.pending[i].auth.Some? && s.pending[i].auth.value.evidence == expected
  }

  lemma AuthorizedRemembers(s: State, expected: Evidence, now: Time)
    requires AuthorizeOp(s, expected, now).Commit?
    ensures Carries(AuthorizeOp(s, expected, now).next, expected)
  {
    var next := AuthorizeOp(s, expected, now).next;
    SameFind(s.pending, next.pending, expected.basis.candidate.serving.pair.version);
  }

  lemma RetryIsSilent(s: State, expected: Evidence, now: Time)
    requires Carries(s, expected)
    ensures AuthorizeOp(s, expected, now) in {Silent(s), Raise(ValueError)}
  {
  }

  lemma {:induction false} SameFind(xs: seq<Item>, ys: seq<Item>, version: nat)
    requires |xs| == |ys| && forall k :: 0 <= k < |xs| ==> xs[k].event == ys[k].event
    ensures FindVersion(xs, version) == FindVersion(ys, version)
  {
    if xs != [] {
      assert forall k :: 0 <= k < |xs[1..]| ==> xs[1..][k] == xs[k + 1] && ys[1..][k] == ys[k + 1];
      SameFind(xs[1..], ys[1..], version);
    }
  }

  // ----- exactly when a call commits ----------------------------------------------------------

  /** Which records the store reads and writes at all. */
  lemma ValidatedExactly(s: State)
    ensures Validated(s) <==>
              && s.route.weight in {0, 10, 25, 50, 100} && |s.pending| <= 20
              && |s.audit| <= 100 && |s.identities| <= 100 && |s.processed| <= 100 && |s.failed| <= 100
              && forall i :: 0 <= i < |s.pending| ==> WellFormed(s.pending[i])
  {
    forall x
      ensures ValidItem(x) <==> WellFormed(x)
    {
      if x.auth.Some? {
        ValidExactly(x.auth.value, CandidateOf(x));
      }
      hide ValidAuth;
      hide WellMade;
    }
    hide ValidItem;
    hide WellFormed;
    assert forall i :: 0 <= i < |s.pending| ==> s.pending[i] in s.pending;
  }

  /** A ready item has the pair of its own event; approved ones, and no others, carry an approval of just that. */
  ghost predicate WellFormed(x: Item) {
    && (x.status in {ReadyForRelease, ApprovedForRelease} ==>
          x.pair.Some? && x.pair.value.version == x.event.version && x.pair.value.uri == x.event.uri)
    && (x.auth.Some? <==> x.status == ApprovedForRelease)
    && (x.auth.Some? ==>
          && x.fingerprint.Some? && WellMade(x.auth.value)
          && x.auth.value.evidence.basis.candidate
             == Candidate(Serving(x.pair.value, x.fingerprint.value),
                          Identity(x.event.version, x.event.uri, x.event.run)))
  }

  lemma ValidExactly(auth: Auth, candidate: Option<Candidate>)
    ensures ValidAuth(auth, candidate) <==> WellMade(auth) && candidate == Some(auth.evidence.basis.candidate)
  {
  }

  /** What binds a running release to its authorization. */
  lemma BindingExactly(a: Active)
    ensures var b := a.auth.evidence.basis;
            && (Binding(a).Some? <==>
                  && WellMade(a.auth) && b.candidate.serving == a.target && b.stable == a.previous
                  && b.candidate.event.version == a.target.pair.version && b.candidate.event.uri == a.target.pair.uri)
            && (Binding(a).Some? ==> Binding(a).value == Bound(a.target, a.auth.hash, a.previous.pair))
  {
    ValidExactly(a.auth, ActiveCandidate(a));
    hide ValidAuth;
    hide WellMade;
  }

  /** The record is idle on the reviewed baseline, and the item is the reviewed candidate, resolved and the newest. */
  predicate Reviewed(s: State, x: Item, b: Basis) {
    var c := b.candidate;
    && s.active.None? && s.route.weight == 0 && s.stable == Some(b.stable)
    && b.highest == s.highest == x.event.version && x.event.version > b.stable.pair.version
    && x.status in {ReadyForRelease, ApprovedForRelease}
    && x.request == Some(Request(c.serving.fingerprint, true)) && x.fingerprint == Some(c.serving.fingerprint)
    && x.pair == Some(c.serving.pair) && c.serving.pair.version == x.event.version && c.serving.pair.uri == x.event.uri
    && c.event == Identity(x.event.version, x.event.uri, x.event.run)
  }

  lemma SnapshotExactly(s: State, i: nat, b: Basis)
    requires i < |s.pending| && s.pending[i].event.version == b.candidate.serving.pair.version
    requires forall k :: 0 <= k < |s.pending| && k != i ==> s.pending[k].event.version != s.pending[i].event.version
    ensures FindVersion(s.pending, b.candidate.serving.pair.version) == i
    ensures Snapshot(s, b.candidate.serving.pair.version) == Some(b) <==> Reviewed(s, s.pending[i], b)
  {
    WithVersionUnique(s.pending, i);
    hide WithVersion;
  }

  /** The written approval is at most a day younger than its evidence. */
  predicate Timely(expected: Evidence, now: Time) {
    expected.wellFormed && 0.0 <= now - expected.created <= 86400.0
  }

  /**
   * The whole call. With no approval yet it writes exactly first evidence that
   * supersedes nothing; the same evidence again is answered, unwritten, while
   * it can be claimed; other evidence replaces an approval exactly when that
   * has expired, is named, comes from another run, was followed by the new
   * evidence, and was given on the same basis.
   */
  lemma AuthorizeExactly(s: State, expected: Evidence, now: Time, i: nat)
    requires PendingOk(s) && i < |s.pending|
    requires s.pending[i].event.version == expected.basis.candidate.serving.pair.version
    ensures var x, r := s.pending[i], AuthorizeOp(s, expected, now);
            && (x.auth.None? ==>
                  (r.Commit? <==>
                     Reviewed(s, x, expected.basis) && expected.supersedes == None && Timely(expected, now)))
            && (x.auth.Some? && x.auth.value.evidence == expected ==>
                  (r.Commit? <==>
                     Reviewed(s, x, expected.basis) && x.auth.value.authorizedAt <= now < x.auth.value.expiresAt))
            && (x.auth.Some? && x.auth.value.evidence != expected ==>
                  (r.Commit? <==>
                     && Reviewed(s, x, expected.basis) && Timely(expected, now)
                     && now >= x.auth.value.expiresAt && expected.created >= x.auth.value.expiresAt
                     && expected.supersedes == Some(x.auth.value.hash)
                     && expected.runId != x.auth.value.evidence.runId
                     && expected.basis == x.auth.value.evidence.basis))
  {
    assert ValidItem(s.pending[i]);
    OthersDiffer(s, i);
    hide PendingOk;
    SnapshotExactly(s, i, expected.basis);
    hide Snapshot;
  }

  /** Afterwards the item carries that approval, and can be claimed at that reading and for a quarter of an hour. */
  lemma AuthorizedIsClaimable(s: State, expected: Evidence, now: Time, i: nat, later: Time)
    requires PendingOk(s) && i < |s.pending|
    requires s.pending[i].event.version == expected.basis.candidate.serving.pair.version
    requires AuthorizeOp(s, expected, now).Commit?
    ensures var x, next := s.pending[i], AuthorizeOp(s, expected, now).next;
            && |next.pending| == |s.pending| && next.pending[i].auth.Some?
            && next.pending[i].auth.value.evidence == expected
            && (Claimable(next, next.pending[i], later) <==>
                  next.pending[i].auth.value.authorizedAt <= later < next.pending[i].auth.value.expiresAt)
            && (if x.auth.Some? && x.auth.value.evidence == expected then next == s
                else next == Audit(s.(pending := next.pending),
                                   Authorized(x.event.version, Of(expected),
                                              if x.auth.Some? then Some(x.auth.value.hash) else None))
                     && var auth := Auth(expected, Of(expected), now, now + 900.0);
                        next.pending == s.pending[i := x.(status := ApprovedForRelease, auth := Some(auth))])
  {
    OthersDiffer(s, i);
    AuthorizeExactly(s, expected, now, i);
    assert ValidItem(s.pending[i]);
    hide PendingOk;
    SnapshotExactly(s, i, expected.basis);
    var next := AuthorizeOp(s, expected, now).next;
    assert next.pending[i].event == s.pending[i].event;
    SnapshotExactly(next, i, expected.basis);
    hide Snapshot;
    hide MayReplace;
  }
}
