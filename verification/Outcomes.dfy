/** The release outcome that the release workflow reports from the bounded audit log. */
module Outcomes {
  import opened Bounded
  import opened ReleaseState
  import opened Mutators
  import opened Lifecycle
  import opened Machine

  datatype Report = AuthorizedOnly | RolloutStarted | ReleaseBlocked | Promoted | RolledBackTo

  /** Rows that decide an outcome, with the authorization they belong to. */
  function OutcomeId(row: Row): Option<Hash> {
    match row
    case Started(_, id) => Some(id)
    case Completed(_, id) => Some(id)
    case RolledBack(_, id) => Some(id)
    case _ => None
  }

  /** The newest row that decides the outcome of this authorization. */
  function LastOutcome(rows: seq<Row>, id: Hash): Option<Row> {
    if rows == [] then None
    else if OutcomeId(rows[|rows| - 1]) == Some(id) then Some(rows[|rows| - 1])
    else LastOutcome(rows[..|rows| - 1], id)
  }

  function ReportOf(row: Option<Row>): Report {
    if row.None? then AuthorizedOnly
    else if row.value.Completed? then Promoted
    else if row.value.RolledBack? then RolledBackTo
    else RolloutStarted
  }

  function Terminal(s: State, id: Hash): Report {
    if s.active.Some? && s.active.value.auth.hash == id then
      if s.active.value.phase == Blocked then ReleaseBlocked else RolloutStarted
    else ReportOf(LastOutcome(s.audit, id))
  }

  /** The reversed scan of the source. */
  method ScanBackwards(s: State, id: Hash) returns (r: Report)
    ensures r == Terminal(s, id)
  {
    if s.active.Some? && s.active.value.auth.hash == id {
      return if s.active.value.phase == Blocked then ReleaseBlocked else RolloutStarted;
    }
    var n := |s.audit|;
    assert s.audit[..n] == s.audit;
    while n > 0
      invariant n <= |s.audit| && LastOutcome(s.audit, id) == LastOutcome(s.audit[..n], id)
    {
      assert s.audit[..n][..n - 1] == s.audit[..n - 1];
      n := n - 1;
      var row := s.audit[n];
      if OutcomeId(row) != Some(id) {
        continue;
      }
      return ReportOf(Some(row));
    }
    return AuthorizedOnly;
  }

  // ----- truth ------------------------------------------------------------------------

  /** The release started by this authorization, if any. */
  function FindClaim(claims: seq<Active>, id: Hash): (i: Option<nat>)
    ensures i.Some? ==> i.value < |claims| && claims[i.value].auth.hash == id
    ensures i.None? ==> forall k :: 0 <= k < |claims| ==> claims[k].auth.hash != id
  {
    if claims == [] then None
    else if claims[|claims| - 1].auth.hash == id then Some(|claims| - 1)
    else FindClaim(claims[..|claims| - 1], id)
  }

  function Truth(h: History, id: Hash): Option<Row> {
    match FindClaim(h.claims, id)
    case None => None
    case Some(i) =>
      var c := h.claims[i];
      if i >= |h.ends| then Some(Started(c.target.pair, id))
      else if h.ends[i].Won? then Some(Completed(c.target.pair, id))
      else Some(RolledBack(c.previous.pair, id))
  }

  ghost predicate OutcomesOk(w: World) {
    forall id :: LastOutcome(w.h.audit, id) == Truth(w.h, id)
  }

  lemma AppendOutcome(rows: seq<Row>, row: Row, id: Hash)
    ensures LastOutcome(rows + [row], id) == if OutcomeId(row) == Some(id) then Some(row) else LastOutcome(rows, id)
  {
    assert (rows + [row])[..|rows|] == rows;
  }

  lemma AppendClaim(claims: seq<Active>, c: Active, id: Hash)
    ensures FindClaim(claims + [c], id) == if c.auth.hash == id then Some(|claims|) else FindClaim(claims, id)
  {
    assert (claims + [c])[..|claims|] == claims;
  }

  lemma PlainRowsByOp(s: State, op: Op)
    requires Mutate(s, op).Commit? && !op.Complete? && !op.Restore? && !op.Claim?
    ensures Mutate(s, op).logged == []
            || (|Mutate(s, op).logged| == 1 && OutcomeId(Mutate(s, op).logged[0]) == None)
  {
  }

  lemma PlainKeepsReleases(w: World, op: Op)
    requires !op.Complete? && !op.Restore? && !op.Claim?
    ensures var v := Step(w, op);
            && v.h.claims == w.h.claims && v.h.ends == w.h.ends
            && (v.h.audit == w.h.audit
                || (|v.h.audit| == |w.h.audit| + 1 && v.h.audit[..|w.h.audit|] == w.h.audit
                    && OutcomeId(v.h.audit[|w.h.audit|]) == None))
  {
    if Mutate(w.s, op).Commit? {
      PlainRowsByOp(w.s, op);
    }
    hide Mutate;
  }

  lemma PlainKeepsOutcomes(w: World, op: Op)
    requires OutcomesOk(w) && !op.Complete? && !op.Restore? && !op.Claim?
    ensures OutcomesOk(Step(w, op))
  {
    hide Step;
    hide LastOutcome;
    hide Truth;
    hide OutcomeId;
    PlainKeepsReleases(w, op);
    var v := Step(w, op);
    forall id
      ensures LastOutcome(v.h.audit, id) == Truth(v.h, id)
    {
      assert LastOutcome(w.h.audit, id) == Truth(w.h, id);
      SameReleasesSameTruth(w.h, v.h, id);
      if v.h.audit != w.h.audit {
        AppendOutcome(w.h.audit, v.h.audit[|w.h.audit|], id);
        assert v.h.audit == w.h.audit + [v.h.audit[|w.h.audit|]];
      }
    }
  }

  lemma SameReleasesSameTruth(h: History, k: History, id: Hash)
    requires k.claims == h.claims && k.ends == h.ends
    ensures Truth(k, id) == Truth(h, id)
  {
    hide FindClaim;
  }

  /** A new release adds its start, and changes the outcome of no other authorization. */
  lemma StartKeepsOutcomes(w: World, v: World, c: Active)
    requires OutcomesOk(w) && |w.h.claims| == |w.h.ends|
    requires v.h.audit == w.h.audit + [Started(c.target.pair, c.auth.hash)]
    requires v.h.claims == w.h.claims + [c] && v.h.ends == w.h.ends
    ensures OutcomesOk(v)
  {
    forall id
      ensures LastOutcome(v.h.audit, id) == Truth(v.h, id)
    {
      assert LastOutcome(w.h.audit, id) == Truth(w.h, id);
      AppendOutcome(w.h.audit, Started(c.target.pair, c.auth.hash), id);
      AppendClaim(w.h.claims, c, id);
      hide LastOutcome;
      hide FindClaim;
    }
  }

  lemma ClaimKeepsOutcomes(w: World, op: Op)
    requires Current(w.s, w.h.claims, w.h.ends) && OutcomesOk(w) && op.Claim? && Fits(w.s, op)
    ensures OutcomesOk(Step(w, op))
  {
    var r := ClaimOp(w.s, op.check, op.deadline);
    assert Mutate(w.s, op) == r && r.Commit? && |w.h.claims| == |w.h.ends|;
    hide Current;
    hide Mutate;
    hide OutcomesOk;
    var v := Step(w, op);
    if r.logged == [] {
      assert w.h.audit + [] == w.h.audit;
      assert v.h.audit == w.h.audit && v.h.claims == w.h.claims && v.h.ends == w.h.ends;
      hide Step;
      hide ClaimOp;
      SameKeepsOutcomes(w, v);
    } else {
      hide Step;
      ClaimStep(w, op);
      ClaimFrame(w.s, op.check, op.deadline);
      hide ClaimOp;
      StartKeepsOutcomes(w, v, r.next.active.value);
    }
  }

  lemma SameKeepsOutcomes(w: World, v: World)
    requires OutcomesOk(w) && v.h.audit == w.h.audit && v.h.claims == w.h.claims && v.h.ends == w.h.ends
    ensures OutcomesOk(v)
  {
    assert forall id :: Truth(v.h, id) == Truth(w.h, id);
  }

  lemma EndKeepsOutcomes(w: World, op: Op)
    requires PhaseOk(w.s) && Current(w.s, w.h.claims, w.h.ends) && OutcomesOk(w)
    requires (op.Complete? || op.Restore?) && Fits(w.s, op)
    ensures OutcomesOk(Step(w, op))
  {
    hide Step;
    hide Mutate;
    hide OutcomesOk;
    assert |w.h.claims| == |w.h.ends| + 1;
    hide PhaseOk;
    hide Fits;
    hide Current;
    EndMeans(w, op);
    var v := Step(w, op);
    EndRowKeepsOutcomes(w, v);
  }

  /** An end adds its row, and changes the outcome of no other authorization. */
  lemma EndRowKeepsOutcomes(w: World, v: World)
    requires OutcomesOk(w) && |w.h.claims| == |w.h.ends| + 1 == |v.h.ends| && v.h.claims == w.h.claims
    requires v.h.ends[..|w.h.ends|] == w.h.ends
    requires var c := w.h.claims[|w.h.claims| - 1];
             v.h.audit == w.h.audit + [if v.h.ends[|w.h.ends|].Won? then Completed(c.target.pair, c.auth.hash)
                                       else RolledBack(c.previous.pair, c.auth.hash)]
    ensures OutcomesOk(v)
  {
    var n := |w.h.ends|;
    forall id
      ensures LastOutcome(v.h.audit, id) == Truth(v.h, id)
    {
      AppendOutcome(w.h.audit, v.h.audit[|w.h.audit|], id);
      assert LastOutcome(w.h.audit, id) == Truth(w.h, id);
      assert forall k :: 0 <= k < n ==> v.h.ends[k] == v.h.ends[..n][k];
      hide LastOutcome;
      LastClaim(w.h.claims, id);
      hide FindClaim;
    }
  }

  lemma LastClaim(claims: seq<Active>, id: Hash)
    requires claims != []
    ensures var i := FindClaim(claims, id);
            i == Some(|claims| - 1) <==> claims[|claims| - 1].auth.hash == id
  {
  }

  lemma EndMeans(w: World, op: Op)
    requires PhaseOk(w.s) && Current(w.s, w.h.claims, w.h.ends)
    requires (op.Complete? || op.Restore?) && Fits(w.s, op)
    ensures var v := Step(w, op);
            var c := w.h.claims[|w.h.claims| - 1];
            && v.h.claims == w.h.claims
            && |v.h.ends| == |v.h.claims| && v.h.ends[..|w.h.ends|] == w.h.ends
            && v.h.ends[|w.h.ends|].Won? == op.Complete?
            && v.h.audit == w.h.audit + [if op.Complete? then Completed(c.target.pair, c.auth.hash)
                                         else RolledBack(c.previous.pair, c.auth.hash)]
  {
  }

  lemma StepKeepsOutcomes(w: World, op: Op)
    requires RecordInv(w.s) && ReleasesOk(w) && OutcomesOk(w) && Fits(w.s, op)
    ensures OutcomesOk(Step(w, op))
  {
    hide OutcomesOk;
    hide Step;
    if op.Claim? {
      ClaimKeepsOutcomes(w, op);
    } else if op.Complete? || op.Restore? {
      EndKeepsOutcomes(w, op);
    } else {
      PlainKeepsOutcomes(w, op);
    }
  }

  // ----- what the window still shows ------------------------------------------------------

  /** Where the newest row that decides this outcome is. */
  function LastDeciding(rows: seq<Row>, id: Hash): (i: Option<nat>)
    ensures i.Some? ==> i.value < |rows| && OutcomeId(rows[i.value]) == Some(id)
    ensures forall k :: (if i.Some? then i.value < k else 0 <= k) && k < |rows| ==> OutcomeId(rows[k]) != Some(id)
  {
    if rows == [] then None
    else if OutcomeId(rows[|rows| - 1]) == Some(id) then Some(|rows| - 1)
    else LastDeciding(rows[..|rows| - 1], id)
  }

  lemma {:induction false} LastOutcomeAt(rows: seq<Row>, id: Hash)
    ensures LastOutcome(rows, id)
            == match LastDeciding(rows, id) case None => None case Some(i) => Some(rows[i])
  {
    if rows != [] && OutcomeId(rows[|rows| - 1]) != Some(id) {
      LastOutcomeAt(rows[..|rows| - 1], id);
    }
  }

  /** A window shows the newest deciding row exactly when that row has not left it. */
  lemma {:induction false} OutcomeInWindow(full: seq<Row>, k: nat, id: Hash)
    requires k <= |full|
    ensures LastOutcome(full[k..], id)
            == match LastDeciding(full, id) case None => None case Some(i) => if i >= k then Some(full[i]) else None
  {
    if k < |full| {
      var n := |full| - 1;
      assert full[k..][..n - k] == full[..n][k..];
      OutcomeInWindow(full[..n], k, id);
    } else {
      assert full[k..] == [];
    }
  }

  /** The position of the row that decides an ended release, in the full log. */
  lemma EndRowOf(w: World, id: Hash, i: nat)
    requires OutcomesOk(w) && FindClaim(w.h.claims, id) == Some(i) && i < |w.h.ends|
    ensures var j := LastDeciding(w.h.audit, id);
            && j.Some?
            && Some(w.h.audit[j.value]) == Truth(w.h, id)
            && w.h.audit[j.value].Completed? == w.h.ends[i].Won? && w.h.audit[j.value].RolledBack? == w.h.ends[i].Lost?
  {
    LastOutcomeAt(w.h.audit, id);
    assert LastOutcome(w.h.audit, id) == Truth(w.h, id);
    hide LastOutcome;
    hide LastDeciding;
  }

  /**
   * The reported outcome is never a wrong end: PROMOTED and ROLLED_BACK are
   * only reported for releases that ended so, ROLLOUT_STARTED and
   * RELEASE_BLOCKED exactly while the release runs. An ended release is
   * reported as merely AUTHORIZED exactly when its end row is not among the
   * last 100 rows of the full log, and otherwise as it really ended.
   */
  lemma TerminalIsHonest(w: World, id: Hash)
    requires WindowsOk(w) && ReleasesOk(w) && OutcomesOk(w)
    ensures var r := Terminal(w.s, id);
            var running := w.s.active.Some? && w.s.active.value.auth.hash == id;
            var i := FindClaim(w.h.claims, id);
            var j := LastDeciding(w.h.audit, id);
            && (r == ReleaseBlocked <==> running && w.s.active.value.phase == Blocked)
            && (r == RolloutStarted <==> running && w.s.active.value.phase != Blocked)
            && (r == Promoted ==> i.Some? && i.value < |w.h.ends| && w.h.ends[i.value].Won?)
            && (r == RolledBackTo ==> i.Some? && i.value < |w.h.ends| && w.h.ends[i.value].Lost?)
            && (!running && i.None? ==> r == AuthorizedOnly)
            && (!running && i.Some? ==>
                  && i.value < |w.h.ends| && j.Some?
                  && (r == AuthorizedOnly <==> |w.h.audit| - j.value > HISTORY)
                  && (r == Promoted <==> |w.h.audit| - j.value <= HISTORY && w.h.ends[i.value].Won?))
  {
    hide Sound;
    hide Increasing;
    hide Baselines;
    hide WonPairs;
    hide LostReleases;
    var k := if |w.h.audit| <= HISTORY then 0 else |w.h.audit| - HISTORY;
    assert w.s.audit == w.h.audit[k..];
    OutcomeInWindow(w.h.audit, k, id);
    LastOutcomeAt(w.h.audit, id);
    assert LastOutcome(w.h.audit, id) == Truth(w.h, id);
    var i := FindClaim(w.h.claims, id);
    if i.Some? && i.value < |w.h.ends| {
      EndRowOf(w, id, i.value);
    }
    hide LastOutcome;
    hide LastDeciding;
    hide WindowsOk;
  }
}
