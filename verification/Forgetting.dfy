/**
 * What the bounded histories forget, at reachable records: a conflicting
 * message that is deleted, and an ended release whose end is no longer reported.
 */
module Forgetting {
  import opened Bounded
  import opened ReleaseState
  import opened Authorization
  import opened Mutators
  import opened Lifecycle
  import opened Machine
  import opened Conservation
  import opened Decisions
  import opened Cluster
  import opened Outcomes
  import opened Store
  import Consumer
  import Progress
  import Runs

  // ----- an ended release stays as it ended -----------------------------------------------

  /** The release of this authorization is number i and has ended. */
  predicate HasEnded(h: History, id: Hash, i: nat) {
    i < |h.ends| <= |h.claims| && FindClaim(h.claims, id) == Some(i)
  }

  /** A log that only grew by rows of other authorizations. */
  ghost predicate GrowsElsewhere(rows: seq<Row>, more: seq<Row>, id: Hash) {
    rows <= more && forall k :: |rows| <= k < |more| ==> OutcomeId(more[k]) != Some(id)
  }

  lemma {:induction false} ElsewhereKeepsEnd(rows: seq<Row>, more: seq<Row>, id: Hash)
    requires GrowsElsewhere(rows, more, id)
    ensures LastDeciding(more, id) == LastDeciding(rows, id)
  {
    if |rows| < |more| {
      ElsewhereKeepsEnd(rows, more[..|more| - 1], id);
    } else {
      assert more == rows;
    }
  }

  lemma ClaimIsFound(claims: seq<Active>, i: nat, id: Hash)
    requires FindClaim(claims, id) == Some(i)
    requires forall a, b :: 0 <= a < b < |claims| ==> claims[a].auth.hash != claims[b].auth.hash
    ensures forall k :: 0 <= k < |claims| && claims[k].auth.hash == id ==> k == i
  {
  }

  lemma SilentClaim(w: World, op: Op)
    requires op.Claim? && ClaimOp(w.s, op.check, op.deadline).logged == []
    ensures var v := Step(w, op);
            v.h.audit == w.h.audit && v.h.claims == w.h.claims && v.h.ends == w.h.ends
  {
    assert Mutate(w.s, op) == ClaimOp(w.s, op.check, op.deadline);
    hide Mutate;
    hide ClaimOp;
    assert w.h.audit + [] == w.h.audit;
  }

  /** A new claim adds the start of another authorization. */
  lemma StartKeepsEnd(w: World, v: World, c: Active, id: Hash, i: nat)
    requires HasEnded(w.h, id, i) && v.h.ends == w.h.ends && v.h.claims == w.h.claims + [c]
    requires v.h.audit == w.h.audit + [Started(c.target.pair, c.auth.hash)]
    requires forall a, b :: 0 <= a < b < |v.h.claims| ==> v.h.claims[a].auth.hash != v.h.claims[b].auth.hash
    ensures HasEnded(v.h, id, i) && GrowsElsewhere(w.h.audit, v.h.audit, id)
  {
    assert v.h.claims[i] == w.h.claims[i] && v.h.claims[|w.h.claims|] == c;
    AppendClaim(w.h.claims, c, id);
  }

  lemma ClaimKeepsEnd(w: World, op: Op, id: Hash, i: nat)
    requires Inv(w) && Fits(w.s, op) && op.Claim? && HasEnded(w.h, id, i)
    ensures var v := Step(w, op);
            HasEnded(v.h, id, i) && v.h.ends == w.h.ends && GrowsElsewhere(w.h.audit, v.h.audit, id)
  {
    hide Inv;
    hide Step;
    hide FindClaim;
    var r := ClaimOp(w.s, op.check, op.deadline);
    assert r.Commit?;
    hide ClaimOp;
    if r.logged == [] {
      SilentClaim(w, op);
    } else {
      StepKeepsInv(w, op);
      AtMostOnce(Step(w, op));
      ClaimStep(w, op);
      ClaimFrame(w.s, op.check, op.deadline);
      StartKeepsEnd(w, Step(w, op), r.next.active.value, id, i);
    }
  }

  /** The end of another release adds the row of another authorization. */
  lemma OtherEndKeepsEnd(w: World, v: World, id: Hash, i: nat)
    requires HasEnded(w.h, id, i) && |w.h.claims| == |w.h.ends| + 1
    requires v.h.claims == w.h.claims && |v.h.ends| == |v.h.claims| && v.h.ends[..|w.h.ends|] == w.h.ends
    requires |v.h.audit| == |w.h.audit| + 1 && v.h.audit[..|w.h.audit|] == w.h.audit
    requires OutcomeId(v.h.audit[|w.h.audit|]) == Some(w.h.claims[|w.h.claims| - 1].auth.hash)
    requires forall a, b :: 0 <= a < b < |w.h.claims| ==> w.h.claims[a].auth.hash != w.h.claims[b].auth.hash
    ensures HasEnded(v.h, id, i) && w.h.ends <= v.h.ends && GrowsElsewhere(w.h.audit, v.h.audit, id)
  {
    ClaimIsFound(w.h.claims, i, id);
    hide FindClaim;
  }

  lemma CurrentCounts(w: World)
    requires Inv(w) && w.s.active.Some?
    ensures PhaseOk(w.s) && Current(w.s, w.h.claims, w.h.ends) && |w.h.claims| == |w.h.ends| + 1
  {
  }

  lemma EndKeepsEnd(w: World, op: Op, id: Hash, i: nat)
    requires Inv(w) && Fits(w.s, op) && (op.Complete? || op.Restore?) && HasEnded(w.h, id, i)
    ensures var v := Step(w, op);
            HasEnded(v.h, id, i) && w.h.ends <= v.h.ends && GrowsElsewhere(w.h.audit, v.h.audit, id)
  {
    hide Inv;
    hide Step;
    hide FindClaim;
    hide PhaseOk;
    hide Current;
    assert w.s.active.Some?;
    hide Fits;
    CurrentCounts(w);
    AtMostOnce(w);
    EndMeans(w, op);
    OtherEndKeepsEnd(w, Step(w, op), id, i);
  }

  lemma StepKeepsEnd(w: World, op: Op, id: Hash, i: nat)
    requires Inv(w) && Fits(w.s, op) && HasEnded(w.h, id, i)
    ensures var v := Step(w, op);
            HasEnded(v.h, id, i) && w.h.ends <= v.h.ends && GrowsElsewhere(w.h.audit, v.h.audit, id)
  {
    hide Inv;
    hide Step;
    hide Fits;
    if op.Claim? {
      ClaimKeepsEnd(w, op, id, i);
    } else if op.Complete? || op.Restore? {
      EndKeepsEnd(w, op, id, i);
    } else {
      PlainKeepsReleases(w, op);
    }
  }

  lemma {:induction false} StepsKeepEnd(w: World, ops: seq<Op>, id: Hash, i: nat)
    requires Inv(w) && FitsRun(w, ops) && HasEnded(w.h, id, i)
    ensures var v := Steps(w, ops);
            HasEnded(v.h, id, i) && w.h.ends <= v.h.ends && GrowsElsewhere(w.h.audit, v.h.audit, id)
    decreases ops
  {
    hide Inv;
    hide Step;
    hide Fits;
    hide FindClaim;
    hide OutcomeId;
    if ops != [] {
      var v := Step(w, ops[0]);
      StepKeepsInv(w, ops[0]);
      StepKeepsEnd(w, ops[0], id, i);
      StepsKeepEnd(v, ops[1..], id, i);
      ElsewhereConcat(w.h.audit, v.h.audit, Steps(v, ops[1..]).h.audit, id);
    }
  }

  lemma {:induction false} StepsKeepOutcomes(w: World, ops: seq<Op>)
    requires Inv(w) && OutcomesOk(w) && FitsRun(w, ops)
    ensures OutcomesOk(Steps(w, ops))
    decreases ops
  {
    hide OutcomesOk;
    hide Step;
    hide Fits;
    if ops != [] {
      InvParts(w);
      StepKeepsOutcomes(w, ops[0]);
      StepKeepsInv(w, ops[0]);
      hide Inv;
      StepsKeepOutcomes(Step(w, ops[0]), ops[1..]);
    }
  }

  lemma ElsewhereConcat(a: seq<Row>, b: seq<Row>, c: seq<Row>, id: Hash)
    requires GrowsElsewhere(a, b, id) && GrowsElsewhere(b, c, id)
    ensures GrowsElsewhere(a, c, id)
  {
    hide OutcomeId;
    forall k | |a| <= k < |c|
      ensures OutcomeId(c[k]) != Some(id)
    {
      assert k < |b| ==> c[k] == b[k];
    }
  }

  /** Each closure of the list commits and logs a row. */
  ghost predicate AllLog(w: World, ops: seq<Op>)
    decreases ops
  {
    ops == [] ||
    (Mutate(w.s, ops[0]).Commit? && Mutate(w.s, ops[0]).logged != [] && AllLog(Step(w, ops[0]), ops[1..]))
  }

  lemma {:induction false} AllLogCounts(w: World, ops: seq<Op>)
    requires AllLog(w, ops)
    ensures |Steps(w, ops).h.audit| == |w.h.audit| + |ops|
    decreases ops
  {
    hide Mutate;
    if ops != [] {
      AuditMoves(w.s, ops[0]);
      AllLogCounts(Step(w, ops[0]), ops[1..]);
    }
    hide Remember;
  }

  /** After 100 further logged closures, whichever they are, an ended release is reported as merely AUTHORIZED. */
  lemma HundredRowsForgetTheEnd(w: World, ops: seq<Op>, id: Hash, i: nat)
    requires Inv(w) && OutcomesOk(w) && FitsRun(w, ops) && HasEnded(w.h, id, i)
    requires AllLog(w, ops) && |ops| >= HISTORY
    ensures Terminal(Steps(w, ops).s, id) == AuthorizedOnly
  {
    var v := Steps(w, ops);
    StepsKeepOutcomes(w, ops);
    StepsKeepEnd(w, ops, id, i);
    StepsKeepInv(w, ops);
    AllLogCounts(w, ops);
    hide Steps;
    EndRowOf(w, id, i);
    ElsewhereKeepsEnd(w.h.audit, v.h.audit, id);
    InvParts(v);
    EndedIsNotRunning(v, id, i);
    hide Inv;
    TerminalIsHonest(v, id);
    hide WindowsOk;
    hide ReleasesOk;
    hide OutcomesOk;
    hide Terminal;
    hide LastDeciding;
    hide FindClaim;
  }

  lemma InvParts(w: World)
    requires Inv(w)
    ensures WindowsOk(w) && ReleasesOk(w) && RecordInv(w.s)
  {
  }

  lemma EndedIsNotRunning(w: World, id: Hash, i: nat)
    requires Inv(w) && HasEnded(w.h, id, i)
    ensures !(w.s.active.Some? && w.s.active.value.auth.hash == id)
  {
    AtMostOnce(w);
    assert Current(w.s, w.h.claims, w.h.ends);
  }

  // ----- repeated old messages -----------------------------------------------------------------

  function Repeats(e: Event, n: nat): (ops: seq<Op>)
    ensures |ops| == n && forall k :: 0 <= k < n ==> ops[k] == Ingest(e)
  {
    seq(n, k => Ingest(e))
  }

  /** Redelivering an event of a covered version only ever logs a row. */
  lemma {:induction false} RepeatsLog(w: World, e: Event, n: nat)
    requires e.version <= w.s.highest
    ensures AllLog(w, Repeats(e, n)) && FitsRun(w, Repeats(e, n))
    decreases n
  {
    if n > 0 {
      assert Repeats(e, n)[1..] == Repeats(e, n - 1);
      assert Mutate(w.s, Ingest(e)) == IngestOp(w.s, e);
      hide Mutate;
      assert IngestDecision(w.s, e) != Accept;
      RepeatsLog(Step(w, Ingest(e)), e, n - 1);
    }
  }

  // ----- one promoted release -------------------------------------------------------------------

  /** An idle record with an empty queue. */
  predicate Idling(s: State) {
    s.active.None? && s.pending == [] && s.stable.Some?
  }

  function NewEvent(version: nat): Event {
    Event(version, "uri", "run", "")
  }

  function ReadyItem(version: nat): Item {
    var e := NewEvent(version);
    Item(e, ReadyForRelease, 0, 0.0, Some(Pair(version, "image", e.uri)), Some("print"), Some(Request("print", true)),
         None, None)
  }

  function EvidenceFor(s: State, version: nat): Evidence
    requires s.stable.Some?
  {
    var x := ReadyItem(version);
    var c := Candidate(Serving(x.pair.value, x.fingerprint.value), IdentityOf(x.event));
    Evidence(Basis(c, s.stable.value, version), None, "1", 0.0, "", true)
  }

  function ApprovedItem(s: State, version: nat): Item
    requires s.stable.Some?
  {
    var ev := EvidenceFor(s, version);
    ReadyItem(version).(status := ApprovedForRelease, auth := Some(Auth(ev, Of(ev), 0.0, 0.0 + TTL)))
  }

  /** Nothing changed but the queue and the approvals. */
  ghost predicate OnlyQueue(w: World, v: World) {
    && v.s.active == w.s.active && v.s.stable == w.s.stable && v.s.route == w.s.route && v.s.highest == w.s.highest
    && v.h.accepted == w.h.accepted && v.h.claims == w.h.claims && v.h.ends == w.h.ends
  }

  lemma IngestNew(w: World)
    requires WindowsOk(w) && AcceptedOk(w) && w.s.pending == []
    ensures var e := NewEvent(w.s.highest + 1);
            var v := Step(w, Ingest(e));
            && v.s.pending == [NewItem(e)] && v.s.highest == w.s.highest + 1
            && v.s.active == w.s.active && v.s.stable == w.s.stable && v.s.route == w.s.route
            && v.h.accepted == w.h.accepted + [IdentityOf(e)] && v.h.claims == w.h.claims && v.h.ends == w.h.ends
  {
    var e := NewEvent(w.s.highest + 1);
    NewVersionUnknown(w, e.version);
    assert Mutate(w.s, Ingest(e)) == IngestOp(w.s, e);
    hide Mutate;
    hide Known;
  }

  lemma ResolveNew(w: World, version: nat)
    requires w.s.pending == [NewItem(NewEvent(version))]
    ensures var op := Resolve(NewItem(NewEvent(version)), Resolved("print", Some("image"), 0.0));
            var v := Step(w, op);
            Fits(w.s, op) && v.s.pending == [ReadyItem(version)] && OnlyQueue(w, v)
  {
    var op := Resolve(NewItem(NewEvent(version)), Resolved("print", Some("image"), 0.0));
    assert Mutate(w.s, op) == ResolveOp(w.s, op.snapshot, op.result);
    hide Mutate;
  }

  lemma SnapshotOfOne(s: State, x: Item, version: nat)
    requires s.active.None? && s.route.weight == 0 && s.stable.Some?
    requires s.stable.value.pair.version < version == s.highest
    requires s.pending == [x] && (x == ReadyItem(version) || x == ApprovedItem(s, version))
    ensures Snapshot(s, version) == Some(EvidenceFor(s, version).basis) && FindVersion(s.pending, version) == 0
  {
    assert WithVersion(s.pending, version) == [x] by {
      assert WithVersion(s.pending[1..], version) == [];
    }
  }

  lemma AuthorizeNew(w: World, version: nat)
    requires w.s.active.None? && w.s.route.weight == 0 && w.s.stable.Some?
    requires w.s.stable.value.pair.version < version == w.s.highest && w.s.pending == [ReadyItem(version)]
    ensures var v := Step(w, Authorize(EvidenceFor(w.s, version), 0.0));
            v.s.pending == [ApprovedItem(w.s, version)] && OnlyQueue(w, v)
  {
    var op := Authorize(EvidenceFor(w.s, version), 0.0);
    SnapshotOfOne(w.s, ReadyItem(version), version);
    assert Mutate(w.s, op) == AuthorizeOp(w.s, op.expected, op.now);
    hide Mutate;
    hide Snapshot;
  }

  lemma ClaimNew(w: World, version: nat, deadline: Time)
    requires PendingOk(w.s) && w.s.active.None? && w.s.route.weight == 0 && w.s.stable.Some?
    requires w.s.stable.value.pair.version < version == w.s.highest && w.s.pending == [ApprovedItem(w.s, version)]
    ensures var v := Step(w, Claim(0.0, deadline));
            && v.s.active.Some? && v.s.active.value.phase == Preparing && v.s.pending == [] && v.s.highest == version
            && v.h.accepted == w.h.accepted && v.h.claims == w.h.claims + [v.s.active.value] && v.h.ends == w.h.ends
  {
    var x := ApprovedItem(w.s, version);
    SnapshotOfOne(w.s, x, version);
    hide Snapshot;
    assert Claimable(w.s, x, 0.0);
    hide Claimable;
    assert Eligible(w.s, w.s.pending, 0.0) == [x] by {
      assert Eligible(w.s, w.s.pending[1..], 0.0) == [];
    }
    var r := ClaimOp(w.s, 0.0, deadline);
    assert r.Commit? && r.logged != [];
    ClaimStep(w, Claim(0.0, deadline));
    ClaimCorrect(w.s, 0.0, deadline);
    hide ClaimOp;
    hide Step;
  }

  // ----- schedules of it ---------------------------------------------------------------------------

  function Outsiders(ops: seq<Op>): (ls: seq<Label>)
    ensures |ls| == |ops| && forall k :: 0 <= k < |ops| ==> ls[k] == Outside(ops[k])
  {
    seq(|ops|, k requires 0 <= k < |ops| => Outside(ops[k]))
  }

  lemma {:induction false} OutsidersLead(p: Policy, y: Sys, ops: seq<Op>) returns (z: Sys)
    requires FitsRun(y.w, ops) && forall k :: 0 <= k < |ops| ==> !ByController(ops[k]) && !ops[k].Acquire?
    ensures Progress.Leads(p, y, Outsiders(ops), z) && z.w == Steps(y.w, ops)
    decreases ops
  {
    hide Step;
    hide Fits;
    if ops == [] {
      z := y;
    } else {
      assert Outsiders(ops)[1..] == Outsiders(ops[1..]);
      z := OutsidersLead(p, Do(p, y, Outside(ops[0])), ops[1..]);
    }
  }

  /** The three closures that bring the next version into an empty queue, ready to be claimed. */
  lemma QueueOne(w: World) returns (ops: seq<Op>)
    requires Inv(w) && Idling(w.s)
    ensures FitsRun(w, ops) && forall k :: 0 <= k < |ops| ==> !ByController(ops[k]) && !ops[k].Acquire?
    ensures var v := Steps(w, ops);
            var version := w.s.highest + 1;
            && Idling(v.s.(pending := [])) && v.s.pending == [ApprovedItem(v.s, version)]
            && v.s.highest == version && v.s.stable == w.s.stable
            && v.h.accepted == w.h.accepted + [IdentityOf(NewEvent(version))]
            && v.h.claims == w.h.claims && v.h.ends == w.h.ends
  {
    hide Inv;
    hide WindowsOk;
    hide AcceptedOk;
    hide PendingOk;
    hide Step;
    hide ApprovedItem;
    IdleFacts(w);
    var version := w.s.highest + 1;
    IngestNew(w);
    var first := Ingest(NewEvent(version));
    var v := Step(w, first);
    var rest := ApproveOne(v, version);
    ops := [first] + rest;
    assert ops[1..] == rest;
  }

  /** The second and third of them. */
  lemma ApproveOne(w: World, version: nat) returns (ops: seq<Op>)
    requires w.s.active.None? && w.s.route.weight == 0 && w.s.stable.Some?
    requires w.s.stable.value.pair.version < version == w.s.highest
    requires w.s.pending == [NewItem(NewEvent(version))]
    ensures FitsRun(w, ops) && forall k :: 0 <= k < |ops| ==> !ByController(ops[k]) && !ops[k].Acquire?
    ensures var v := Steps(w, ops);
            OnlyQueue(w, v) && v.s.pending == [ApprovedItem(v.s, version)]
  {
    ResolveNew(w, version);
    hide Step;
    hide ReadyItem;
    hide EvidenceFor;
    hide ApprovedItem;
    var second := Resolve(NewItem(NewEvent(version)), Resolved("print", Some("image"), 0.0));
    var b := Step(w, second);
    var third := Authorize(EvidenceFor(b.s, version), 0.0);
    AuthorizeNew(b, version);
    var c := Step(b, third);
    LeasedItem(b.s, c.s, version);
    assert Steps(c, []) == c && FitsRun(c, []);
    assert [third][1..] == [] && [second, third][1..] == [third];
    assert Steps(b, [third]) == c && FitsRun(b, [third]);
    ops := [second, third];
  }

  lemma IdleFacts(w: World)
    requires Inv(w)
    ensures WindowsOk(w) && AcceptedOk(w) && PendingOk(w.s)
    ensures w.s.active.None? ==> w.s.route.weight == 0
    ensures w.s.stable.Some? ==> w.s.stable.value.pair.version <= w.s.highest
  {
  }

  /** A tick that finds an approved item claims it. */
  lemma ClaimTick(p: Policy, y: Sys, o: Owner, version: nat) returns (ls: seq<Label>, z: Sys, at: Time)
    requires SysInv(y) && y.w.s.active.None?
    ensures Progress.Leads(p, y, ls, z)
    ensures z.w == Step(Progress.Leased(y.w, o, at + 60.0), Claim(0.0, p.timeout))
  {
    hide SysInv;
    hide Progress.Leads;
    hide Step;
    at := Progress.FreeAt(y.w.s, 0.0);
    ls, z := Progress.Begin(p, y, o, at);
    var ans := Answers(true, true, Progress.Healthy(p), 0.0, 0.0, 0.0);
    assert DecisionOf(p, CtlOf(z, o), ans) == Write(Claim(0.0, p.timeout));
    hide Decide;
    ls, z := Progress.WriteNow(p, y, ls, z, o, at, ans, Claim(0.0, p.timeout));
  }

  /** From any idle state with an empty queue, some schedule accepts and promotes the next version. */
  lemma PromoteOne(p: Policy, y: Sys, o: Owner) returns (ls: seq<Label>, z: Sys)
    requires SysInv(y) && ValidPolicy(p) && Idling(y.w.s)
    ensures Progress.Leads(p, y, ls, z) && SysInv(z) && Idling(z.w.s)
    ensures z.w.s.highest == y.w.s.highest + 1
    ensures z.w.h.accepted == y.w.h.accepted + [IdentityOf(NewEvent(y.w.s.highest + 1))]
    ensures |z.w.h.claims| == |y.w.h.claims| + 1 && z.w.h.ends == y.w.h.ends + [Won]
  {
    hide Progress.Leads;
    hide Step;
    hide ApprovedItem;
    hide PendingOk;
    hide WindowsOk;
    hide AcceptedOk;
    var version := y.w.s.highest + 1;
    SysInvParts(y);
    hide SysInv;
    var ops := QueueOne(y.w);
    hide Inv;
    var queued := OutsidersLead(p, y, ops);
    Progress.LeadsKeepsSysInv(p, y, Outsiders(ops), queued);
    hide Steps;
    hide FitsRun;
    var more, claimed, at := ClaimTick(p, queued, o, version);
    Progress.LeadsConcat(p, y, Outsiders(ops), queued, more, claimed);
    QueuedFacts(queued);
    var leased := Progress.Leased(queued.w, o, at + 60.0);
    LeasedItem(queued.w.s, leased.s, version);
    LeasedQueue(queued.w.s, leased.s);
    ClaimNew(leased, version, p.timeout);
    Progress.LeadsKeepsSysInv(p, queued, more, claimed);
    var rest, end := Progress.CanPromote(p, claimed, o);
    Progress.LeadsConcat(p, y, Outsiders(ops) + more, claimed, rest, end);
    Progress.LeadsKeepsSysInv(p, claimed, rest, end);
    ls, z := Outsiders(ops) + more + rest, end;
  }

  lemma QueuedFacts(y: Sys)
    requires SysInv(y)
    ensures PendingOk(y.w.s)
    ensures y.w.s.active.None? ==> y.w.s.route.weight == 0
    ensures y.w.s.stable.Some? ==> y.w.s.stable.value.pair.version <= y.w.s.highest
  {
    SysInvParts(y);
  }

  lemma LeasedItem(s: State, t: State, version: nat)
    requires s.stable.Some? && t.stable == s.stable
    ensures ApprovedItem(t, version) == ApprovedItem(s, version)
  {
  }

  lemma LeasedQueue(s: State, t: State)
    requires PendingOk(s) && t.pending == s.pending && t.highest == s.highest
    ensures PendingOk(t)
  {
  }

  lemma Initially(p: Policy, stable: Serving)
    ensures var y := InitialSys(Some(stable));
            && Progress.Leads(p, y, [], y) && SysInv(y) && Idling(y.w.s) && y.w.s.highest == stable.pair.version
            && y.w.h.accepted == [] && y.w.h.claims == [] && y.w.h.ends == []
  {
    InitialSysInv(Some(stable));
    hide SysInv;
  }

  lemma {:induction false} PromoteMany(p: Policy, stable: Serving, o: Owner, n: nat) returns (ls: seq<Label>, z: Sys)
    requires ValidPolicy(p)
    ensures Progress.Leads(p, InitialSys(Some(stable)), ls, z) && SysInv(z) && Idling(z.w.s)
    ensures z.w.s.highest == stable.pair.version + n
    ensures |z.w.h.accepted| == n == |z.w.h.claims| && |z.w.h.ends| == n
    ensures forall k :: 0 <= k < n ==> z.w.h.accepted[k] == IdentityOf(NewEvent(stable.pair.version + 1 + k))
    ensures forall k :: 0 <= k < n ==> z.w.h.ends[k] == Won
  {
    hide SysInv;
    hide Progress.Leads;
    hide InitialSys;
    hide ValidPolicy;
    if n == 0 {
      Initially(p, stable);
      ls, z := [], InitialSys(Some(stable));
    } else {
      var before, y := PromoteMany(p, stable, o, n - 1);
      var more;
      more, z := PromoteOne(p, y, o);
      Progress.LeadsConcat(p, InitialSys(Some(stable)), before, y, more, z);
      ls := before + more;
    }
  }

  // ----- the conflicting message ---------------------------------------------------------------------

  /** An event whose version was accepted with another identity. */
  predicate Conflicts(w: World, e: Event) {
    Known(w.h.accepted, e.version).Some? && Known(w.h.accepted, e.version).value != IdentityOf(e)
  }

  /**
   * A conflicting message that meets no other writer and no fault is deleted
   * exactly when the record has forgotten its version, and then answered Stale.
   */
  lemma ForgottenConflictIsDeleted(w: World, e: Event, receipt: string)
    requires Inv(w) && Conflicts(w, e)
    ensures var d := Consumer.Delivery(Consumer.Message(Some(e), receipt), [], [Turn([], Delivered)], Delivered);
            var (world, handled, deleted) := Consumer.DeliverySpec(w, d);
            && (deleted <==> Known(w.s.identities, e.version).None?)
            && (deleted ==> handled == Consumer.Returns(Stale))
            && (!deleted ==> handled == Consumer.Raises)
  {
    hide Inv;
    hide Known;
    hide Validated;
    ConflictDecision(w, e);
    InvValidates(w);
    StepKeepsInv(w, Ingest(e));
    InvValidates(Step(w, Ingest(e)));
    OneTurn(w, e);
    hide UpdateSpec;
    hide Step;
    hide IngestDecision;
  }

  /** What the record decides about a conflicting event. */
  lemma ConflictDecision(w: World, e: Event)
    requires Inv(w) && Conflicts(w, e)
    ensures IngestDecision(w.s, e) == if Known(w.s.identities, e.version).None? then Stale else IdentityConflict
  {
    KnownIsMember(w.h.accepted, e.version);
    CoveredVersion(w, e.version);
    var n := if |w.h.accepted| <= HISTORY then 0 else |w.h.accepted| - HISTORY;
    assert w.s.identities == w.h.accepted[n..];
    AcceptedIncrease(w);
    hide Inv;
    KnownInWindow(w.h.accepted, n, e.version);
    hide Known;
  }

  lemma AcceptedIncrease(w: World)
    requires Inv(w)
    ensures forall i, j :: 0 <= i < j < |w.h.accepted| ==> w.h.accepted[i].version < w.h.accepted[j].version
  {
  }

  /** An undisturbed update of an event that is not accepted returns its decision. */
  lemma OneTurn(w: World, e: Event)
    requires Validated(w.s) && Validated(Step(w, Ingest(e)).s) && IngestDecision(w.s, e) != Accept
    ensures UpdateSpec(w, Ingest(e), [Turn([], Delivered)])
            == Updated(Step(w, Ingest(e)), Done(Decided(IngestDecision(w.s, e))))
  {
    hide Validated;
    var turns := [Turn([], Delivered)];
    assert Mutate(w.s, Ingest(e)) == IngestOp(w.s, e) && IngestOp(w.s, e).Commit?;
    assert Step(w, Ingest(e)).s == IngestOp(w.s, e).next;
    hide Mutate;
    hide IngestOp;
    hide IngestDecision;
    assert turns[0].others == [] && Commits(w, []) == 0;
    hide Step;
  }

  lemma CoveredVersion(w: World, version: nat)
    requires Inv(w) && exists i :: 0 <= i < |w.h.accepted| && w.h.accepted[i].version == version
    ensures version <= w.s.highest
  {
  }

  /** It happens: after 101 promoted releases, a conflicting message of the first of them is deleted as stale. */
  lemma ConflictIsDeletedInARun(p: Policy, stable: Serving, o: Owner, receipt: string)
    returns (ls: seq<Label>, ys: seq<Sys>, e: Event)
    requires ValidPolicy(p)
    ensures Runs.IsRun(p, Some(stable), ys, ls)
    ensures var w := ys[|ls|].w;
            var d := Consumer.Delivery(Consumer.Message(Some(e), receipt), [], [Turn([], Delivered)], Delivered);
            && Conflicts(w, e) && FullDecision(w, e) == IdentityConflict
            && Consumer.DeliverySpec(w, d).1 == Consumer.Returns(Stale) && Consumer.DeliverySpec(w, d).2
  {
    var z;
    ls, z := PromoteMany(p, stable, o, 101);
    ys := AsRun(p, stable, ls, z);
    e := NewEvent(stable.pair.version + 1).(uri := "elsewhere");
    FirstIsForgotten(z, stable.pair.version, e);
    ForgottenConflictIsDeleted(z.w, e, receipt);
    hide Runs.IsRun;
    hide Consumer.DeliverySpec;
    hide Inv;
  }

  lemma AsRun(p: Policy, stable: Serving, ls: seq<Label>, z: Sys) returns (ys: seq<Sys>)
    requires Progress.Leads(p, InitialSys(Some(stable)), ls, z)
    ensures Runs.IsRun(p, Some(stable), ys, ls) && |ys| == |ls| + 1 && ys[|ls|] == z
  {
    hide Progress.Leads;
    ys := Progress.LeadsExtendsRun(p, Some(stable), [InitialSys(Some(stable))], [], ls, z);
    assert [] + ls == ls;
  }

  lemma FirstIsForgotten(z: Sys, base: nat, e: Event)
    requires SysInv(z) && |z.w.h.accepted| == 101 && e.version == base + 1
    requires forall k :: 0 <= k < 101 ==> z.w.h.accepted[k] == IdentityOf(NewEvent(base + 1 + k))
    requires IdentityOf(e) != IdentityOf(NewEvent(base + 1))
    ensures Inv(z.w) && Conflicts(z.w, e) && FullDecision(z.w, e) == IdentityConflict
    ensures Known(z.w.s.identities, e.version).None?
  {
    SysInvParts(z);
    var ids := z.w.h.accepted;
    assert ids[0].version == e.version;
    KnownIsMember(z.w.s.identities, e.version);
    forall i | 0 <= i < |z.w.s.identities|
      ensures z.w.s.identities[i].version != e.version
    {
      assert z.w.s.identities[i] == ids[i + 1];
    }
    hide Inv;
  }

  // ----- the forgotten end -----------------------------------------------------------------------------

  /** It happens: a promoted release and 100 redeliveries of an old message, and it is reported as merely AUTHORIZED. */
  lemma EndIsForgottenInARun(p: Policy, stable: Serving, o: Owner) returns (ls: seq<Label>, ys: seq<Sys>, id: Hash)
    requires ValidPolicy(p)
    ensures Runs.IsRun(p, Some(stable), ys, ls)
    ensures var w := ys[|ls|].w;
            && HasEnded(w.h, id, 0) && w.h.ends[0].Won? && Terminal(w.s, id) == AuthorizedOnly
  {
    var first, y := PromoteMany(p, stable, o, 1);
    var before := AsRun(p, stable, first, y);
    id := y.w.h.claims[0].auth.hash;
    assert FindClaim(y.w.h.claims, id) == Some(0);
    var ops := Repeats(NewEvent(stable.pair.version), 100);
    RepeatsLog(y.w, NewEvent(stable.pair.version), 100);
    hide Progress.Leads;
    hide SysInv;
    hide FitsRun;
    hide AllLog;
    hide Runs.IsRun;
    var z := OutsidersLead(p, y, ops);
    ls := first + Outsiders(ops);
    Progress.LeadsConcat(p, InitialSys(Some(stable)), first, y, Outsiders(ops), z);
    ys := AsRun(p, stable, ls, z);
    AlwaysAlong(p, stable, before, first);
    hide FindClaim;
    StepsKeepEnd(y.w, ops, id, 0);
    HundredRowsForgetTheEnd(y.w, ops, id, 0);
    hide Terminal;
    hide OutcomesOk;
    hide Inv;
  }

  lemma AlwaysAlong(p: Policy, stable: Serving, ys: seq<Sys>, ls: seq<Label>)
    requires Runs.IsRun(p, Some(stable), ys, ls) && |ys| == |ls| + 1
    ensures Inv(ys[|ls|].w) && OutcomesOk(ys[|ls|].w)
  {
    Runs.RunKeepsAlways(p, Some(stable), ys, ls, |ls|);
    hide Inv;
    hide OutcomesOk;
  }
}
