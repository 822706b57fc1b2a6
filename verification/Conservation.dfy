/** Where accepted versions go, and how often anything can happen to one of them. */
module Conservation {
  import opened Bounded
  import opened ReleaseState
  import opened Mutators
  import opened Lifecycle
  import opened Machine

  ghost predicate WasAccepted(h: History, v: nat) {
    exists i :: 0 <= i < |h.accepted| && h.accepted[i].version == v
  }

  ghost predicate InPending(s: State, v: nat) {
    exists i :: 0 <= i < |s.pending| && s.pending[i].event.version == v
  }

  ghost predicate IsActive(s: State, v: nat) {
    s.active.Some? && s.active.value.target.pair.version == v
  }

  ghost predicate WasPromoted(h: History, v: nat) {
    exists i :: 0 <= i < |h.processed| && h.processed[i].version == v
  }

  ghost predicate WasRolledBack(h: History, v: nat) {
    exists i :: 0 <= i < |h.failed| && h.failed[i].pair.version == v
  }

  ghost predicate WasClaimed(h: History, v: nat) {
    exists i :: 0 <= i < |h.claims| && h.claims[i].target.pair.version == v
  }

  /** Dropped from the queue by the claim of a newer version. */
  ghost predicate WasSuperseded(h: History, v: nat) {
    WasAccepted(h, v) && !WasClaimed(h, v)
    && exists i :: 0 <= i < |h.claims| && h.claims[i].target.pair.version > v
  }

  function LastClaimed(h: History): nat {
    if h.claims == [] then 0 else h.claims[|h.claims| - 1].target.pair.version
  }

  ghost predicate AcceptedOk(w: World) {
    var ids := w.h.accepted;
    && (forall i, j :: 0 <= i < j < |ids| ==> ids[i].version < ids[j].version)
    && (forall i :: 0 <= i < |ids| ==> 0 < ids[i].version <= w.s.highest)
    && (forall v: nat :: WasAccepted(w.h, v) && v > LastClaimed(w.h) ==> InPending(w.s, v))
    && (forall v: nat :: InPending(w.s, v) ==> WasAccepted(w.h, v))
    && (forall v: nat :: WasClaimed(w.h, v) ==> WasAccepted(w.h, v))
  }

  ghost predicate Inv(w: World) {
    RecordInv(w.s) && WindowsOk(w) && RoutesOk(w) && ReleasesOk(w) && AcceptedOk(w)
  }

  // ----- preservation -----------------------------------------------------------

  lemma StepKeepsAccepted(w: World, op: Op)
    requires Inv(w) && Fits(w.s, op)
    ensures AcceptedOk(Step(w, op))
  {
    StepCases(w, op);
    var v := Step(w, op);
    hide Step;
    if Starts(w, v) {
      StartKeepsAccepted(w, v);
    } else if Keeps(w, v) {
      if QueueKept(w, v) {
        KeptKeepsAccepted(w, v);
      } else {
        GrowthKeepsAccepted(w, v);
      }
    } else {
      EndKeepsAccepted(w, v);
    }
  }

  lemma EndKeepsAccepted(w: World, v: World)
    requires AcceptedOk(w) && v.s.pending == w.s.pending && v.s.highest == w.s.highest
    requires v.h.accepted == w.h.accepted && v.h.claims == w.h.claims
    ensures AcceptedOk(v)
  {
    assert forall x :: InPending(w.s, x) <==> InPending(v.s, x);
    assert forall x :: WasAccepted(w.h, x) <==> WasAccepted(v.h, x);
    assert forall x :: WasClaimed(w.h, x) <==> WasClaimed(v.h, x);
  }

  lemma KeptKeepsAccepted(w: World, v: World)
    requires AcceptedOk(w) && Keeps(w, v) && QueueKept(w, v)
    ensures AcceptedOk(v)
  {
    assert forall x :: InPending(w.s, x) <==> InPending(v.s, x);
    assert forall x :: WasAccepted(w.h, x) <==> WasAccepted(v.h, x);
    assert forall x :: WasClaimed(w.h, x) <==> WasClaimed(v.h, x);
  }

  lemma GrowthKeepsAccepted(w: World, v: World)
    requires AcceptedOk(w) && v.h.claims == w.h.claims && QueueGrows(w, v)
    ensures AcceptedOk(v)
  {
    var n, m := |w.s.pending|, |w.h.accepted|;
    var fresh' := v.s.pending[n].event.version;
    assert v.h.accepted[m].version == fresh';
    forall x
      ensures WasAccepted(v.h, x) <==> WasAccepted(w.h, x) || x == fresh'
    {
      if WasAccepted(w.h, x) {
        var i :| 0 <= i < m && w.h.accepted[i].version == x;
        assert v.h.accepted[i].version == x;
      }
    }
    forall x
      ensures InPending(v.s, x) <==> InPending(w.s, x) || x == fresh'
    {
      assert forall i :: 0 <= i < n ==> v.s.pending[i] == w.s.pending[i];
      if InPending(w.s, x) {
        var i :| 0 <= i < n && w.s.pending[i].event.version == x;
        assert v.s.pending[i].event.version == x;
      }
    }
    assert forall x :: WasClaimed(w.h, x) <==> WasClaimed(v.h, x);
  }

  lemma StartKeepsAccepted(w: World, v: World)
    requires AcceptedOk(w) && Starts(w, v)
    ensures AcceptedOk(v)
  {
    var chosen := v.s.active.value.target.pair.version;
    assert InPending(w.s, chosen);
    assert forall y :: WasAccepted(w.h, y) <==> WasAccepted(v.h, y);
    assert forall y :: WasAccepted(w.h, y) ==> y <= chosen == LastClaimed(v.h);
    assert forall y :: !InPending(v.s, y);
    hide InPending;
    hide WasAccepted;
    forall y | WasClaimed(v.h, y)
      ensures y == chosen || WasClaimed(w.h, y)
    {
      var i :| 0 <= i < |v.h.claims| && v.h.claims[i].target.pair.version == y;
      assert i < |w.h.claims| ==> w.h.claims[i].target.pair.version == y;
    }
  }

  /** The whole invariant is kept by every committed closure that fits the record. */
  lemma StepKeepsInv(w: World, op: Op)
    requires Inv(w) && Fits(w.s, op)
    ensures Inv(Step(w, op))
  {
    StepKeepsAccepted(w, op);
    StepKeepsReleases(w, op);
    StepKeepsRoutes(w, op);
    StepKeepsWindows(w, op);
    if Mutate(w.s, op).Commit? {
      FittingKeepsRecordInv(w.s, op);
    }
    assert RecordInv(Step(w, op).s);
    hide Step;
  }

  lemma InitialInv(stable: Option<Serving>)
    ensures Inv(InitialWorld(stable))
  {
  }

  // ----- conservation --------------------------------------------------------------

  lemma {:induction false} PromotedMeans(claims: seq<Active>, ends: seq<End>, v: nat)
    requires |ends| <= |claims|
    ensures (exists i :: 0 <= i < |WonPairs(claims, ends)| && WonPairs(claims, ends)[i].version == v)
            <==> (exists i :: 0 <= i < |ends| && ends[i].Won? && claims[i].target.pair.version == v)
  {
    if ends != [] {
      var n := |ends| - 1;
      var before := WonPairs(claims, ends[..n]);
      PromotedMeans(claims, ends[..n], v);
      var all := WonPairs(claims, ends);
      if i :| 0 <= i < |before| && before[i].version == v {
        assert all[i].version == v;
        var j :| 0 <= j < n && ends[..n][j].Won? && claims[j].target.pair.version == v;
        assert ends[j].Won?;
      } else if ends[n].Won? && claims[n].target.pair.version == v {
        assert all[|before|].version == v;
      } else {
        forall j | 0 <= j < |ends| && ends[j].Won?
          ensures claims[j].target.pair.version != v
        {
          assert j < n ==> ends[..n][j].Won?;
        }
        forall k | 0 <= k < |all|
          ensures all[k].version != v
        {
          assert k < |before| ==> all[k] == before[k];
        }
      }
    }
  }

  lemma {:induction false} RolledBackMeans(claims: seq<Active>, ends: seq<End>, v: nat)
    requires |ends| <= |claims|
    ensures (exists i :: 0 <= i < |LostReleases(claims, ends)| && LostReleases(claims, ends)[i].pair.version == v)
            <==> (exists i :: 0 <= i < |ends| && ends[i].Lost? && claims[i].target.pair.version == v)
  {
    if ends != [] {
      var n := |ends| - 1;
      var before := LostReleases(claims, ends[..n]);
      RolledBackMeans(claims, ends[..n], v);
      var all := LostReleases(claims, ends);
      if i :| 0 <= i < |before| && before[i].pair.version == v {
        assert all[i].pair.version == v;
        var j :| 0 <= j < n && ends[..n][j].Lost? && claims[j].target.pair.version == v;
        assert ends[j].Lost?;
      } else if ends[n].Lost? && claims[n].target.pair.version == v {
        assert all[|before|].pair.version == v;
      } else {
        forall j | 0 <= j < |ends| && ends[j].Lost?
          ensures claims[j].target.pair.version != v
        {
          assert j < n ==> ends[..n][j].Lost?;
        }
        forall k | 0 <= k < |all|
          ensures all[k].pair.version != v
        {
          assert k < |before| ==> all[k] == before[k];
        }
      }
    }
  }

  function Count(b: bool): nat {
    if b then 1 else 0
  }

  lemma ClaimedFate(w: World, v: nat)
    requires ReleasesOk(w) && WasClaimed(w.h, v)
    ensures !InPending(w.s, v) && !WasSuperseded(w.h, v)
    ensures Count(IsActive(w.s, v)) + Count(WasPromoted(w.h, v)) + Count(WasRolledBack(w.h, v)) == 1
  {
    var i :| 0 <= i < |w.h.claims| && w.h.claims[i].target.pair.version == v;
    assert w.h.claims[|w.h.claims| - 1].target.pair.version >= v;
    ClaimedOutcome(w, i);
    hide Baselines;
    hide Increasing;
    hide WasPromoted;
    hide WasRolledBack;
  }

  lemma ClaimedOutcome(w: World, i: nat)
    requires ReleasesOk(w) && i < |w.h.claims|
    ensures var v := w.h.claims[i].target.pair.version;
            && (WasPromoted(w.h, v) <==> i < |w.h.ends| && w.h.ends[i].Won?)
            && (WasRolledBack(w.h, v) <==> i < |w.h.ends| && w.h.ends[i].Lost?)
            && (IsActive(w.s, v) <==> i == |w.h.ends|)
  {
    var v := w.h.claims[i].target.pair.version;
    PromotedMeans(w.h.claims, w.h.ends, v);
    RolledBackMeans(w.h.claims, w.h.ends, v);
    hide Baselines;
    hide Sound;
    hide WonPairs;
    hide LostReleases;
    assert forall j :: 0 <= j < |w.h.claims| && j != i ==> w.h.claims[j].target.pair.version != v;
  }

  lemma ReleasedWasClaimed(w: World, v: nat)
    requires ReleasesOk(w) && (IsActive(w.s, v) || WasPromoted(w.h, v) || WasRolledBack(w.h, v))
    ensures WasClaimed(w.h, v)
  {
    var claims, ends := w.h.claims, w.h.ends;
    assert Current(w.s, claims, ends) && w.h.processed == WonPairs(claims, ends)
           && w.h.failed == LostReleases(claims, ends);
    hide ReleasesOk;
    if IsActive(w.s, v) {
      assert claims[|ends|].target.pair.version == v;
    } else if WasPromoted(w.h, v) {
      PromotedMeans(claims, ends, v);
      var i :| 0 <= i < |ends| && ends[i].Won? && claims[i].target.pair.version == v;
    } else {
      RolledBackMeans(claims, ends, v);
      var i :| 0 <= i < |ends| && ends[i].Lost? && claims[i].target.pair.version == v;
    }
  }

  /** An accepted version that was never claimed waits exactly when it is above the last claim. */
  lemma UnclaimedWaits(w: World, v: nat)
    requires QueueAbove(w.s, w.h.claims) && AcceptedOk(w) && !WasClaimed(w.h, v)
    ensures InPending(w.s, v) <==> WasAccepted(w.h, v) && v > LastClaimed(w.h)
  {
    hide WasAccepted;
    var n := |w.h.claims|;
    if n == 0 {
      if WasAccepted(w.h, v) {
        AcceptedArePositive(w, v);
      }
    } else {
      assert w.h.claims[n - 1].target.pair.version == LastClaimed(w.h);
    }
  }

  lemma AcceptedArePositive(w: World, v: nat)
    requires AcceptedOk(w) && WasAccepted(w.h, v)
    ensures v > 0
  {
    hide InPending;
    hide WasClaimed;
  }

  lemma SupersededMeans(h: History, v: nat)
    requires Increasing(h.claims) && !WasClaimed(h, v)
    ensures WasSuperseded(h, v) <==> WasAccepted(h, v) && h.claims != [] && v < LastClaimed(h)
  {
    hide WasAccepted;
    if h.claims == [] {
    } else {
      assert h.claims[|h.claims| - 1].target.pair.version == LastClaimed(h);
    }
  }

  lemma UnclaimedFate(w: World, v: nat)
    requires ReleasesOk(w) && AcceptedOk(w) && !WasClaimed(w.h, v)
    ensures !IsActive(w.s, v) && !WasPromoted(w.h, v) && !WasRolledBack(w.h, v)
    ensures Count(InPending(w.s, v)) + Count(WasSuperseded(w.h, v)) == Count(WasAccepted(w.h, v))
  {
    if IsActive(w.s, v) || WasPromoted(w.h, v) || WasRolledBack(w.h, v) {
      ReleasedWasClaimed(w, v);
    }
    UnclaimedWaits(w, v);
    SupersededMeans(w.h, v);
    if w.h.claims == [] {
      if WasAccepted(w.h, v) {
        AcceptedArePositive(w, v);
      }
    } else {
      assert w.h.claims[|w.h.claims| - 1].target.pair.version == LastClaimed(w.h) != v;
    }
    hide ReleasesOk;
    hide AcceptedOk;
    hide WasPromoted;
    hide WasRolledBack;
    hide WasSuperseded;
    hide WasAccepted;
    hide InPending;
  }

  /** Every accepted version is in exactly one place; any other version is in none. */
  lemma ExactlyOneFate(w: World, v: nat)
    requires Inv(w)
    ensures Count(InPending(w.s, v)) + Count(IsActive(w.s, v)) + Count(WasPromoted(w.h, v))
            + Count(WasRolledBack(w.h, v)) + Count(WasSuperseded(w.h, v))
            == Count(WasAccepted(w.h, v))
  {
    if WasClaimed(w.h, v) {
      ClaimedFate(w, v);
    } else {
      UnclaimedFate(w, v);
    }
  }

  // ----- at most once ------------------------------------------------------------------

  /**
   * Each version is accepted at most once and claimed at most once, and each
   * authorization starts at most one release, although the record keeps only
   * the last 100 identities.
   */
  lemma AtMostOnce(w: World)
    requires Inv(w)
    ensures forall i, j :: 0 <= i < j < |w.h.accepted| ==> w.h.accepted[i].version != w.h.accepted[j].version
    ensures forall i, j :: 0 <= i < j < |w.h.claims| ==>
              w.h.claims[i].target.pair.version != w.h.claims[j].target.pair.version
              && w.h.claims[i].auth.hash != w.h.claims[j].auth.hash
  {
    forall i, j | 0 <= i < j < |w.h.claims|
      ensures w.h.claims[i].auth.hash != w.h.claims[j].auth.hash
    {
      assert Sound(w.h.claims[i], w.s.highest) && Sound(w.h.claims[j], w.s.highest);
    }
  }

  /**
   * A bootstrap writes exactly on a record that was never bootstrapped, leased
   * or given a candidate, for a verified serving that is not older than what
   * was accepted; the next version is then the first that is accepted.
   */
  lemma BootstrapExactly(w: World, serving: Serving, verified: bool)
    ensures var r := Mutate(w.s, Bootstrap(serving, verified));
            && (r.Commit? <==>
                  && w.s.active.None? && w.s.pending == [] && w.s.lease.None? && w.s.route.weight == 0 && verified
                  && w.s.stable in {None, Some(serving)} && w.s.highest <= serving.pair.version)
            && (r.Commit? && w.s.stable.Some? ==> r.next == w.s)
            && (r.Commit? && w.s.stable.None? ==>
                  && r.next == Audit(w.s, Bootstrapped(serving)).(stable := Some(serving),
                                                                  highest := serving.pair.version)
                  && (Inv(w) ==>
                        forall e: Event :: e.version > serving.pair.version ==> IngestDecision(r.next, e) == Accept))
  {
    var r := Mutate(w.s, Bootstrap(serving, verified));
    assert r == BootstrapOp(w.s, serving, verified);
    hide Mutate;
    if Inv(w) {
      assert WindowsOk(w) && AcceptedOk(w);
      hide Inv;
      forall e: Event | e.version > serving.pair.version && w.s.highest <= serving.pair.version
        ensures Known(w.s.identities, e.version).None?
      {
        NewVersionUnknown(w, e.version);
      }
      hide AcceptedOk;
      hide WindowsOk;
      hide Known;
    }
    hide Inv;
  }

  /**
   * A version is accepted exactly when it is greater than every accepted one
   * and the queue has room; a version that is not greater is only noted, as a
   * duplicate, a conflict or stale, by what the last 100 identities say of it.
   */
  lemma IngestExactly(w: World, e: Event)
    requires Inv(w)
    ensures var s, r, result := w.s, Mutate(w.s, Ingest(e)), IngestDecision(w.s, e);
            && (result == Accept <==> e.version > s.highest)
            && (result == Duplicate <==> Identity(e.version, e.uri, e.run) in s.identities)
            && (result == IdentityConflict <==>
                  && e.version in Versions(s.identities)
                  && Identity(e.version, e.uri, e.run) !in s.identities)
            && r == if e.version > s.highest && |s.pending| >= 20 then Raise(BusyError)
                    else
                      var next :=
                        if e.version <= s.highest then s
                        else s.(pending := s.pending + [Item(e, Accepted, 0, 0.0, None, None, None, None, None)],
                                highest := e.version,
                                identities := Last(s.identities + [Identity(e.version, e.uri, e.run)], 100));
                      Commit(Audit(next, Ingested(result, e.version)), [Ingested(result, e.version)])
  {
    assert Mutate(w.s, Ingest(e)) == IngestOp(w.s, e);
    hide Mutate;
    assert WindowsOk(w) && AcceptedOk(w);
    hide Inv;
    IdentitiesDiffer(w);
    KnownIsMember(w.s.identities, e.version);
    KnownIsThe(w.s.identities, e.version);
    if e.version > w.s.highest {
      NewVersionUnknown(w, e.version);
    }
    hide AcceptedOk;
    hide WindowsOk;
    hide Known;
  }

  function Versions(ids: seq<Identity>): set<nat> {
    set i | 0 <= i < |ids| :: ids[i].version
  }

  lemma IdentitiesDiffer(w: World)
    requires WindowsOk(w) && AcceptedOk(w)
    ensures forall i, j :: 0 <= i < j < |w.s.identities| ==> w.s.identities[i].version < w.s.identities[j].version
  {
    var n := |w.h.accepted| - |w.s.identities|;
    assert forall i :: 0 <= i < |w.s.identities| ==> w.s.identities[i] == w.h.accepted[n + i];
  }

  lemma {:induction false} KnownIsThe(ids: seq<Identity>, version: nat)
    requires forall i, j :: 0 <= i < j < |ids| ==> ids[i].version < ids[j].version
    ensures forall k :: k in ids && k.version == version ==> Known(ids, version) == Some(k)
    ensures Known(ids, version).Some? ==> Known(ids, version).value in ids
  {
    if ids != [] {
      KnownIsThe(ids[1..], version);
    }
  }

  lemma NewVersionUnknown(w: World, version: nat)
    requires WindowsOk(w) && AcceptedOk(w) && version > w.s.highest
    ensures Known(w.s.identities, version).None?
  {
    var n := |w.h.accepted| - |w.s.identities|;
    forall i | 0 <= i < |w.s.identities|
      ensures w.s.identities[i].version != version
    {
      assert w.s.identities[i] == w.h.accepted[n + i];
    }
    KnownIsMember(w.s.identities, version);
  }

  /** Ingestion with the full identity history instead of the last 100 entries. */
  function FullDecision(w: World, e: Event): IngestResult {
    IngestDecision(w.s.(identities := w.h.accepted), e)
  }

  lemma {:induction false} KnownInWindow(ids: seq<Identity>, n: nat, version: nat)
    requires n <= |ids| && forall i, j :: 0 <= i < j < |ids| ==> ids[i].version < ids[j].version
    ensures Known(ids[n..], version).Some? ==> Known(ids, version) == Known(ids[n..], version)
    ensures Known(ids, version).Some? && Known(ids[n..], version).None? ==>
              exists i :: 0 <= i < n && ids[i].version == version
    ensures Known(ids, version).Some? ==> exists i :: 0 <= i < |ids| && ids[i].version == version
  {
    if n == 0 {
      assert ids[0..] == ids;
      KnownIsMember(ids, version);
    } else {
      assert ids[1..][n - 1..] == ids[n..];
      KnownInWindow(ids[1..], n - 1, version);
      KnownIsMember(ids[n..], version);
      KnownIsMember(ids[1..], version);
    }
  }

  lemma {:induction false} KnownIsMember(ids: seq<Identity>, version: nat)
    ensures Known(ids, version).Some? <==> exists i :: 0 <= i < |ids| && ids[i].version == version
  {
    if ids != [] {
      KnownIsMember(ids[1..], version);
      if i :| 0 <= i < |ids| && ids[i].version == version {
        assert i > 0 ==> ids[1..][i - 1].version == version;
      }
    }
  }

  /**
   * Forgetting old identities never changes what is accepted. It changes the
   * reported reason exactly for versions that fell out of the window, and then
   * only to `Stale`.
   */
  lemma TruncationIsHarmless(w: World, e: Event)
    requires Inv(w)
    ensures IngestDecision(w.s, e) == Accept <==> FullDecision(w, e) == Accept
    ensures IngestDecision(w.s, e) != FullDecision(w, e) <==>
              Known(w.h.accepted, e.version).Some? && Known(w.s.identities, e.version).None?
    ensures IngestDecision(w.s, e) != FullDecision(w, e) ==> IngestDecision(w.s, e) == Stale
  {
    var ids := w.h.accepted;
    var n := if |ids| <= HISTORY then 0 else |ids| - HISTORY;
    assert w.s.identities == ids[n..];
    KnownInWindow(ids, n, e.version);
  }
}
