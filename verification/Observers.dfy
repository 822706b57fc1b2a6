/**
 * The audit-log observers: they see only the last 100 audit rows and the
 * current record, and must still report how an exact release really went.
 */
module Observers {
  import opened Bounded
  import opened ReleaseState
  import opened Authorization
  import opened Mutators
  import opened Lifecycle
  import opened Machine

  // ----- scanning -------------------------------------------------------------------

  const ALL_STAGES: seq<nat> := [10, 25, 50, 100]

  /** Index of the latest release start, if any is retained. */
  function LatestStart(rows: seq<Row>): (r: Option<nat>)
    ensures r.Some? ==> r.value < |rows| && rows[r.value].Started?
  {
    if rows == [] then None
    else if rows[|rows| - 1].Started? then Some(|rows| - 1)
    else LatestStart(rows[..|rows| - 1])
  }

  /** Promoted weights in order, the first terminal row, and whether anything contradicts it. */
  datatype Scan = Scan(stages: seq<nat>, terminal: Option<Row>, conflict: bool)

  function ScanRow(sc: Scan, row: Row): Scan {
    if sc.terminal.Some? then
      if row.StagePromoted? || row.Completed? || row.RolledBack? then sc.(conflict := true) else sc
    else if row.StagePromoted? then sc.(stages := sc.stages + [row.previousWeight])
    else if row.Completed? || row.RolledBack? then sc.(terminal := Some(row))
    else sc
  }

  function ScanRows(rows: seq<Row>): Scan {
    if rows == [] then Scan([], None, false) else ScanRow(ScanRows(rows[..|rows| - 1]), rows[|rows| - 1])
  }

  function Reasons(rows: seq<Row>): seq<string> {
    if rows == [] then []
    else Reasons(rows[..|rows| - 1])
         + (if rows[|rows| - 1].RollbackRequested? then [rows[|rows| - 1].detail] else [])
  }

  function FailuresOf(failed: seq<Failure>, pair: Pair): seq<Failure> {
    if failed == [] then []
    else FailuresOf(failed[..|failed| - 1], pair)
         + (if failed[|failed| - 1].pair == pair then [failed[|failed| - 1]] else [])
  }

  // ----- automatic observation ---------------------------------------------------------

  /** The release that an automatic run is bound to, and whether its configuration matches. */
  datatype Config = Config(policyTest: bool, version: nat, expected: Bound)

  datatype Verdict = Raised | InProgress(seen: seq<nat>) | Inconclusive(why: string, seen: seq<nat>)
    | Pass(seen: seq<nat>) | Fail(reason: string, seen: seq<nat>)

  predicate StableFits(s: State, phase: Phase, e: Bound)
    requires s.stable.Some?
  {
    var stable := s.stable.value.pair;
    match phase
    case Draining => stable == e.target.pair
    case Rollback => stable == e.previous || stable == e.target.pair
    case Blocked => true
    case _ => stable == e.previous
  }

  function JudgeActive(s: State, a: Active, e: Bound, sc: Scan): Verdict {
    if sc.terminal.Some? then Inconclusive("conflicting_terminal_evidence", sc.stages)
    else if a.phase == Blocked then Inconclusive("controller_blocked", sc.stages)
    else if s.stable.None? || !StableFits(s, a.phase, e) then Raised
    else InProgress(sc.stages)
  }

  function TerminalAuth(row: Row): Option<Hash> {
    match row
    case Completed(_, id) => Some(id)
    case RolledBack(_, id) => Some(id)
    case _ => None
  }

  function JudgeIdle(s: State, e: Bound, rows: seq<Row>, sc: Scan): Verdict {
    if sc.terminal.None? || TerminalAuth(sc.terminal.value) != Some(e.authId) || s.route.weight != 0 then
      Inconclusive("missing_exact_terminal_evidence", sc.stages)
    else
      var stable := if s.stable.Some? then Some(s.stable.value.pair) else None;
      match sc.terminal.value
      case Completed(p, _) =>
        if p != e.target.pair || stable != Some(e.target.pair) then Inconclusive("terminal_pair_mismatch", sc.stages)
        else if sc.stages != ALL_STAGES then Inconclusive("incomplete_stage_evidence", sc.stages)
        else Pass(sc.stages)
      case RolledBack(previous, _) =>
        var failed := FailuresOf(s.failed, e.target.pair);
        if previous != e.previous || stable != Some(e.previous) || |failed| != 1 then
          Inconclusive("rollback_identity_mismatch", sc.stages)
        else if Reasons(rows) == [] || Reasons(rows)[|Reasons(rows)| - 1] != failed[0].reason then
          Inconclusive("rollback_reason_mismatch", sc.stages)
        else Fail(failed[0].reason, sc.stages)
      case _ => Raised
  }

  function Observe(c: Config, s: State): Verdict {
    var e := c.expected;
    if !c.policyTest || c.version != e.target.pair.version then Raised
    else if s.active.Some? && Binding(s.active.value) != Some(e) then Raised
    else
      match LatestStart(s.audit)
      case None => Inconclusive("missing_exact_release_evidence", [])
      case Some(i) =>
        var rows := s.audit[i..];
        if rows[0] != Started(e.target.pair, e.authId) then Inconclusive("conflicting_release_evidence", [])
        else Judge(s, e, rows[1..], ScanRows(rows[1..]))
  }

  function Judge(s: State, e: Bound, rows: seq<Row>, sc: Scan): Verdict {
    if sc.conflict then Inconclusive("conflicting_terminal_evidence", sc.stages)
    else if s.active.Some? then JudgeActive(s, s.active.value, e, sc)
    else JudgeIdle(s, e, rows, sc)
  }

  /** A contradiction found early is still there at the end, with the stages seen so far. */
  lemma {:induction false} ConflictSticks(rows: seq<Row>, i: nat)
    requires i <= |rows| && ScanRows(rows[..i]).conflict && ScanRows(rows[..i]).terminal.Some?
    ensures ScanRows(rows).conflict && ScanRows(rows).terminal.Some?
    ensures ScanRows(rows).stages == ScanRows(rows[..i]).stages
  {
    if i < |rows| {
      assert rows[..|rows| - 1][..i] == rows[..i];
      ConflictSticks(rows[..|rows| - 1], i);
    } else {
      assert rows[..i] == rows;
    }
  }

  /** The two loops of the source, over the retained rows. */
  method AutomaticObservation(c: Config, s: State) returns (v: Verdict)
    ensures v == Observe(c, s)
  {
    if !c.policyTest || c.version != c.expected.target.pair.version {
      return Raised;
    }
    if s.active.Some? && Binding(s.active.value) != Some(c.expected) {
      return Raised;
    }
    var start: Option<nat> := None;
    for i := 0 to |s.audit|
      invariant start == LatestStart(s.audit[..i])
    {
      assert s.audit[..i + 1][..i] == s.audit[..i];
      if s.audit[i].Started? {
        start := Some(i);
      }
    }
    assert s.audit[..|s.audit|] == s.audit;
    hide LatestStart;
    hide JudgeIdle;
    hide JudgeActive;
    hide Binding;
    if start.None? {
      return Inconclusive("missing_exact_release_evidence", []);
    }
    var rows := s.audit[start.value..];
    if rows[0] != Started(c.expected.target.pair, c.expected.authId) {
      return Inconclusive("conflicting_release_evidence", []);
    }
    var rest := rows[1..];
    assert Observe(c, s) == Judge(s, c.expected, rest, ScanRows(rest));
    hide Observe;
    hide Judge;
    hide ScanRows;
    NothingScanned(rest);
    var stages: seq<nat>, terminal: Option<Row> := [], None;
    for i := 0 to |rest|
      invariant ScanRows(rest[..i]) == Scan(stages, terminal, false)
    {
      var row := rest[i];
      ScanGrows(rest, i);
      if terminal.Some? {
        if row.StagePromoted? || row.Completed? || row.RolledBack? {
          ConflictSticks(rest, i + 1);
          ConflictJudged(s, c.expected, rest);
          return Inconclusive("conflicting_terminal_evidence", stages);
        }
      } else if row.StagePromoted? {
        stages := stages + [row.previousWeight];
      } else if row.Completed? || row.RolledBack? {
        terminal := Some(row);
      }
    }
    assert rest[..|rest|] == rest;
    NoConflictJudged(s, c.expected, rest, Scan(stages, terminal, false));
    if s.active.Some? {
      v := JudgeActive(s, s.active.value, c.expected, Scan(stages, terminal, false));
    } else {
      v := JudgeIdle(s, c.expected, rest, Scan(stages, terminal, false));
    }
  }

  lemma NothingScanned(rows: seq<Row>)
    ensures ScanRows(rows[..0]) == Scan([], None, false)
  {
  }

  lemma ScanGrows(rows: seq<Row>, i: nat)
    requires i < |rows|
    ensures ScanRows(rows[..i + 1]) == ScanRow(ScanRows(rows[..i]), rows[i])
  {
    assert rows[..i + 1][..i] == rows[..i];
  }

  lemma ConflictJudged(s: State, e: Bound, rows: seq<Row>)
    requires ScanRows(rows).conflict
    ensures Judge(s, e, rows, ScanRows(rows))
            == Inconclusive("conflicting_terminal_evidence", ScanRows(rows).stages)
  {
    hide ScanRows;
  }

  lemma NoConflictJudged(s: State, e: Bound, rows: seq<Row>, sc: Scan)
    requires !sc.conflict
    ensures Judge(s, e, rows, sc)
            == if s.active.Some? then JudgeActive(s, s.active.value, e, sc) else JudgeIdle(s, e, rows, sc)
  {
    hide JudgeActive;
    hide JudgeIdle;
  }

  // ----- any record, reachable or not --------------------------------------------------------

  predicate IsEnd(row: Row) {
    row.Completed? || row.RolledBack?
  }

  /** The weights whose stages were promoted, in order. */
  function PromotedWeights(rows: seq<Row>): seq<nat> {
    if rows == [] then []
    else PromotedWeights(rows[..|rows| - 1])
         + (if rows[|rows| - 1].StagePromoted? then [rows[|rows| - 1].previousWeight] else [])
  }

  /** Row t is the first end of a release, and nothing after it contradicts that. */
  ghost predicate EndsAt(rows: seq<Row>, t: int) {
    && 0 <= t < |rows| && IsEnd(rows[t])
    && (forall k :: 0 <= k < t ==> !IsEnd(rows[k]))
    && (forall k :: t < k < |rows| ==> !IsEnd(rows[k]) && !rows[k].StagePromoted?)
  }

  ghost predicate NoEnd(rows: seq<Row>) {
    forall k :: 0 <= k < |rows| ==> !IsEnd(rows[k])
  }

  lemma {:induction false} ScanExactly(rows: seq<Row>)
    ensures var sc := ScanRows(rows);
            && (sc.terminal.None? <==> NoEnd(rows))
            && (NoEnd(rows) ==> !sc.conflict && sc.stages == PromotedWeights(rows))
            && (!NoEnd(rows) && !sc.conflict <==> exists t :: EndsAt(rows, t))
            && forall t :: EndsAt(rows, t) ==>
                 sc.terminal == Some(rows[t]) && sc.stages == PromotedWeights(rows[..t])
  {
    if rows != [] {
      var n := |rows| - 1;
      var before, row := rows[..n], rows[n];
      ScanExactly(before);
      forall t | 0 <= t < n
        ensures EndsAt(rows, t) <==> EndsAt(before, t) && !IsEnd(row) && !row.StagePromoted?
        ensures before[..t] == rows[..t]
      {
      }
      assert EndsAt(rows, n) <==> NoEnd(before) && IsEnd(row);
      assert NoEnd(rows) <==> NoEnd(before) && !IsEnd(row);
      assert forall t :: EndsAt(rows, t) ==> 0 <= t <= n;
      hide EndsAt;
      hide NoEnd;
      hide PromotedWeights;
      PromotedGrows(rows);
      if t :| EndsAt(before, t) {
        assert EndsAt(rows, t) <==> !IsEnd(row) && !row.StagePromoted?;
      }
    }
  }

  lemma PromotedGrows(rows: seq<Row>)
    requires rows != []
    ensures PromotedWeights(rows)
            == PromotedWeights(rows[..|rows| - 1])
               + (if rows[|rows| - 1].StagePromoted? then [rows[|rows| - 1].previousWeight] else [])
  {
  }

  /** The newest requested rollback gives this reason. */
  ghost predicate LastReason(rows: seq<Row>, reason: string) {
    exists r :: 0 <= r < |rows| && rows[r] == RollbackRequested(reason)
                && forall k :: r < k < |rows| ==> !rows[k].RollbackRequested?
  }

  lemma {:induction false} ReasonsExactly(rows: seq<Row>, reason: string)
    ensures Reasons(rows) != [] && Reasons(rows)[|Reasons(rows)| - 1] == reason <==> LastReason(rows, reason)
  {
    if rows != [] {
      var n := |rows| - 1;
      ReasonsExactly(rows[..n], reason);
      if rows[n].RollbackRequested? {
        assert Reasons(rows) == Reasons(rows[..n]) + [rows[n].detail];
      } else {
        assert Reasons(rows) == Reasons(rows[..n]) + [] == Reasons(rows[..n]);
        if LastReason(rows[..n], reason) {
          var r :| 0 <= r < n && rows[..n][r] == RollbackRequested(reason)
                   && forall k :: r < k < n ==> !rows[..n][k].RollbackRequested?;
          assert forall k :: r < k < |rows| && k < n ==> rows[..n][k] == rows[k];
        }
        if LastReason(rows, reason) {
          var r :| 0 <= r < |rows| && rows[r] == RollbackRequested(reason)
                   && forall k :: r < k < |rows| ==> !rows[k].RollbackRequested?;
          assert rows[..n][r] == rows[r] && forall k :: r < k < n ==> rows[..n][k] == rows[k];
        }
      }
    }
  }

  /** What a verdict about a running release has seen in the rows after its start, whatever the record is. */
  lemma ActiveExactly(s: State, e: Bound, rows: seq<Row>)
    requires s.active.Some?
    ensures var r := Judge(s, e, rows, ScanRows(rows));
            var fits := s.stable.Some?
                        && match s.active.value.phase
                           case Draining => s.stable.value.pair == e.target.pair
                           case Rollback => s.stable.value.pair in {e.previous, e.target.pair}
                           case _ => s.stable.value.pair == e.previous;
            && (r.InProgress? <==> NoEnd(rows) && s.active.value.phase != Blocked && fits)
            && (r.InProgress? ==> r.seen == PromotedWeights(rows))
            && (r.Raised? <==> NoEnd(rows) && s.active.value.phase != Blocked && !fits)
            && !r.Pass? && !r.Fail?
  {
    ScanExactly(rows);
    hide ScanRows;
    hide PromotedWeights;
    hide NoEnd;
    hide EndsAt;
  }

  /** Row t ends this release as promoted, after the four stages. */
  ghost predicate WonAt(e: Bound, rows: seq<Row>, t: int) {
    EndsAt(rows, t) && rows[t] == Completed(e.target.pair, e.authId) && PromotedWeights(rows[..t]) == [10, 25, 50, 100]
  }

  ghost predicate LostAt(e: Bound, rows: seq<Row>, t: int) {
    EndsAt(rows, t) && rows[t] == RolledBack(e.previous, e.authId)
  }

  /** An idle record whose log has such an end. */
  lemma EndJudged(s: State, e: Bound, rows: seq<Row>, t: int)
    requires s.active.None? && EndsAt(rows, t)
    ensures var r, failed := Judge(s, e, rows, ScanRows(rows)), FailuresOf(s.failed, e.target.pair);
            var stable := if s.stable.Some? then Some(s.stable.value.pair) else None;
            && (r.Pass? <==> s.route.weight == 0 && stable == Some(e.target.pair) && WonAt(e, rows, t))
            && (r.Fail? <==>
                  && s.route.weight == 0 && stable == Some(e.previous) && LostAt(e, rows, t)
                  && |failed| == 1 && LastReason(rows, failed[0].reason))
            && (r.Fail? ==> r.reason == failed[0].reason)
            && !r.InProgress? && !r.Raised?
  {
    ScanExactly(rows);
    var failed := FailuresOf(s.failed, e.target.pair);
    if failed != [] {
      ReasonsExactly(rows, failed[0].reason);
    }
    assert IsEnd(rows[t]) && !NoEnd(rows);
    hide ScanRows;
    hide PromotedWeights;
    hide Reasons;
    hide FailuresOf;
    hide LastReason;
    hide EndsAt;
    hide NoEnd;
  }

  lemma NoEndJudged(s: State, e: Bound, rows: seq<Row>)
    requires s.active.None? && forall t :: !EndsAt(rows, t)
    ensures Judge(s, e, rows, ScanRows(rows)).Inconclusive?
  {
    ScanExactly(rows);
    hide ScanRows;
    hide EndsAt;
    hide NoEnd;
  }

  /** What a verdict about an idle record has seen. */
  lemma IdleExactly(s: State, e: Bound, rows: seq<Row>)
    requires s.active.None?
    ensures var r, failed := Judge(s, e, rows, ScanRows(rows)), FailuresOf(s.failed, e.target.pair);
            var stable := if s.stable.Some? then Some(s.stable.value.pair) else None;
            && (r.Pass? <==>
                  s.route.weight == 0 && stable == Some(e.target.pair) && exists t :: WonAt(e, rows, t))
            && (r.Fail? <==>
                  && s.route.weight == 0 && stable == Some(e.previous) && (exists t :: LostAt(e, rows, t))
                  && |failed| == 1 && LastReason(rows, failed[0].reason))
            && (r.Fail? ==> r.reason == failed[0].reason)
            && !r.InProgress? && !r.Raised?
  {
    if t :| EndsAt(rows, t) {
      EndJudged(s, e, rows, t);
      forall k | EndsAt(rows, k)
        ensures k == t
      {
        assert !(k < t) && !(t < k);
      }
    } else {
      NoEndJudged(s, e, rows);
    }
    hide Judge;
    hide ScanRows;
    hide PromotedWeights;
    hide FailuresOf;
    hide LastReason;
    hide EndsAt;
  }

  lemma {:induction false} StartExactly(rows: seq<Row>)
    ensures LatestStart(rows).None? <==> forall i :: 0 <= i < |rows| ==> !rows[i].Started?
    ensures LatestStart(rows).Some? ==> forall k :: LatestStart(rows).value < k < |rows| ==> !rows[k].Started?
  {
    if rows != [] && !rows[|rows| - 1].Started? {
      StartExactly(rows[..|rows| - 1]);
    }
  }

  /** Which rows a verdict is about: those after the newest start, which has to be that of this release. */
  lemma ObservedRows(c: Config, s: State, i: int)
    requires 0 <= i < |s.audit| && s.audit[i].Started? && forall k :: i < k < |s.audit| ==> !s.audit[k].Started?
    ensures var e, rows := c.expected, s.audit[i + 1..];
            Observe(c, s)
            == if !c.policyTest || c.version != e.target.pair.version then Raised
               else if s.active.Some? && Binding(s.active.value) != Some(e) then Raised
               else if s.audit[i] != Started(e.target.pair, e.authId) then
                 Inconclusive("conflicting_release_evidence", [])
               else Judge(s, e, rows, ScanRows(rows))
  {
    StartExactly(s.audit);
    assert s.audit[i..][1..] == s.audit[i + 1..];
    hide LatestStart;
    hide Binding;
    hide Judge;
    hide ScanRows;
  }

  // ----- the log of a run ------------------------------------------------------------------

  function StagesBelow(weight: nat): seq<nat> {
    if weight <= 10 then [] else if weight == 25 then [10] else if weight == 50 then [10, 25] else [10, 25, 50]
  }

  predicate StagesFit(phase: Phase, weight: nat, stages: seq<nat>) {
    match phase
    case Preparing => stages == []
    case Ramp => stages == StagesBelow(weight)
    case Finalizing => stages == ALL_STAGES
    case Draining => stages == ALL_STAGES
    case _ => true
  }

  /** What was scanned tells the truth about the latest release. */
  ghost predicate Truthful(s: State, claims: seq<Active>, ends: seq<End>, sc: Scan, reasons: seq<string>)
    requires claims != []
  {
    var c := claims[|claims| - 1];
    && !sc.conflict
    && match s.active
       case Some(a) =>
         && sc.terminal.None?
         && StagesFit(a.phase, s.route.weight, sc.stages)
         && reasons == (if a.reason.Some? then [a.reason.value] else [])
       case None =>
         && |ends| == |claims|
         && match ends[|ends| - 1]
            case Won => sc.terminal == Some(Completed(c.target.pair, c.auth.hash)) && sc.stages == ALL_STAGES
            case Lost(reason) =>
              sc.terminal == Some(RolledBack(c.previous.pair, c.auth.hash)) && reasons == [reason]
  }

  /** The rows after the latest start do. */
  ghost predicate TailOk(s: State, claims: seq<Active>, ends: seq<End>, tail: seq<Row>)
    requires claims != []
  {
    Truthful(s, claims, ends, ScanRows(tail), Reasons(tail))
  }

  ghost predicate LogOk(w: World) {
    match LatestStart(w.h.audit)
    case None => w.h.claims == []
    case Some(i) =>
      && w.h.claims != []
      && var c := w.h.claims[|w.h.claims| - 1];
      && w.h.audit[i] == Started(c.target.pair, c.auth.hash)
      && TailOk(w.s, w.h.claims, w.h.ends, w.h.audit[i + 1..])
  }

  lemma AppendRow(rows: seq<Row>, row: Row)
    ensures LatestStart(rows + [row]) == if row.Started? then Some(|rows|) else LatestStart(rows)
    ensures ScanRows(rows + [row]) == ScanRow(ScanRows(rows), row)
    ensures Reasons(rows + [row])
            == if row.RollbackRequested? then Reasons(rows) + [row.detail] else Reasons(rows)
  {
    assert (rows + [row])[..|rows|] == rows;
    assert Reasons(rows) + [] == Reasons(rows);
  }

  lemma SilentKeepsTail(s: State, op: Op, claims: seq<Active>, ends: seq<End>, tail: seq<Row>)
    requires PhaseOk(s) && Fits(s, op) && Mutate(s, op).Commit? && Mutate(s, op).logged == []
    requires claims != [] && TailOk(s, claims, ends, tail)
    ensures TailOk(Mutate(s, op).next, claims, ends, tail)
  {
    if ChangesQueue(op) {
      QueueKeepsView(s, op);
      hide Mutate;
    }
  }

  /** Rows that no observer looks at. */
  predicate Neutral(row: Row) {
    row.Ingested? || row.Resolution? || row.Recovered? || row.Bootstrapped? || row.Authorized? || row.StableCommitted?
  }

  lemma RowsByOp(s: State, op: Op)
    requires Mutate(s, op).Commit? && Mutate(s, op).logged != []
    ensures |Mutate(s, op).logged| == 1
    ensures ChangesQueue(op) || op.Bootstrap? ==> Neutral(Mutate(s, op).logged[0])
    ensures ChangesQueue(op) || op.Bootstrap? ==>
              Mutate(s, op).next.active == s.active && Mutate(s, op).next.route == s.route
    ensures op.Claim? || op.BeginRollback? || op.Promote? || op.CommitStable? || op.Complete? || op.Restore?
            || ChangesQueue(op) || op.Bootstrap?
    ensures Mutate(s, op).logged[0].Started? <==> op.Claim?
    ensures Mutate(s, op).logged[0].Completed? <==> op.Complete?
    ensures Mutate(s, op).logged[0].RolledBack? <==> op.Restore?
  {
    hide Known;
    hide FindEvent;
    hide WithVersion;
    hide FindVersion;
    hide Snapshot;
    hide MayReplace;
    hide ValidAuth;
    hide Claimable;
    hide Eligible;
    hide Newest;
    hide Newer;
    hide Apply;
  }

  // What each row of the release in progress adds to the scan.

  lemma RollbackIsTruthful(s: State, reason: string, deadline: Time, claims: seq<Active>, ends: seq<End>, sc: Scan,
                           reasons: seq<string>)
    requires PhaseOk(s) && claims != [] && Truthful(s, claims, ends, sc, reasons)
    requires BeginRollbackOp(s, reason, deadline).Commit? && BeginRollbackOp(s, reason, deadline).logged != []
    ensures var r := BeginRollbackOp(s, reason, deadline);
            && r.logged == [RollbackRequested(reason)]
            && Truthful(r.next, claims, ends, ScanRow(sc, r.logged[0]), reasons + [reason])
  {
    hide StagesBelow;
    assert reasons == [] && [] + [reason] == [reason];
  }

  /** The promoted weight is the next stage that the log has to show. */
  lemma StagesGrow(weight: nat)
    requires IsStage(weight)
    ensures StagesBelow(weight) + [weight]
            == if weight == 100 then ALL_STAGES else StagesBelow(NextStage(weight))
  {
  }

  lemma PromotionIsTruthful(s: State, weight: nat, deadline: Time, claims: seq<Active>, ends: seq<End>, sc: Scan,
                            reasons: seq<string>)
    requires PhaseOk(s) && InPhase(s, Ramp) && s.route.weight == weight
    requires claims != [] && Truthful(s, claims, ends, sc, reasons)
    requires PromoteOp(s, weight, deadline).Commit? && PromoteOp(s, weight, deadline).logged != []
    ensures var r := PromoteOp(s, weight, deadline);
            && r.logged == [StagePromoted(weight)]
            && Truthful(r.next, claims, ends, ScanRow(sc, r.logged[0]), reasons)
  {
    assert IsStage(weight);
    hide PhaseOk;
    StagesGrow(weight);
    hide StagesBelow;
    hide IsStage;
  }

  lemma CommitmentIsTruthful(s: State, target: Serving, deadline: Time, claims: seq<Active>, ends: seq<End>, sc: Scan,
                             reasons: seq<string>)
    requires InPhase(s, Finalizing) && claims != [] && Truthful(s, claims, ends, sc, reasons)
    requires CommitStableOp(s, target, deadline).Commit? && CommitStableOp(s, target, deadline).logged != []
    ensures var r := CommitStableOp(s, target, deadline);
            && r.logged == [StableCommitted(target.pair)]
            && Truthful(r.next, claims, ends, ScanRow(sc, r.logged[0]), reasons)
  {
    hide StagesBelow;
  }

  lemma ProgressKeepsTail(s: State, op: Op, claims: seq<Active>, ends: seq<End>, tail: seq<Row>)
    requires PhaseOk(s) && Fits(s, op) && (op.BeginRollback? || op.Promote? || op.CommitStable?)
    requires Mutate(s, op).Commit? && Mutate(s, op).logged != []
    requires claims != [] && TailOk(s, claims, ends, tail)
    ensures TailOk(Mutate(s, op).next, claims, ends, tail + Mutate(s, op).logged)
  {
    var r := Mutate(s, op);
    var sc, reasons := ScanRows(tail), Reasons(tail);
    assert Truthful(s, claims, ends, sc, reasons);
    hide Truthful;
    hide PhaseOk;
    hide ScanRows;
    hide Reasons;
    match op
    case BeginRollback(reason, deadline) =>
      assert r == BeginRollbackOp(s, reason, deadline);
      hide Mutate;
      hide BeginRollbackOp;
      RollbackIsTruthful(s, reason, deadline, claims, ends, sc, reasons);
      AppendRow(tail, r.logged[0]);
    case Promote(weight, deadline) =>
      assert r == PromoteOp(s, weight, deadline);
      hide Mutate;
      hide PromoteOp;
      PromotionIsTruthful(s, weight, deadline, claims, ends, sc, reasons);
      AppendRow(tail, r.logged[0]);
    case CommitStable(target, deadline) =>
      assert r == CommitStableOp(s, target, deadline);
      hide Mutate;
      hide CommitStableOp;
      CommitmentIsTruthful(s, target, deadline, claims, ends, sc, reasons);
      AppendRow(tail, r.logged[0]);
  }

  /** The row that ends a release, for a promoted and for a rolled back one. */
  lemma EndRow(s: State, next: State, claims: seq<Active>, ends: seq<End>, tail: seq<Row>, e: End)
    requires PhaseOk(s) && Current(s, claims, ends) && s.active.Some? && TailOk(s, claims, ends, tail)
    requires next.active.None?
    requires e.Won? ==> InPhase(s, Draining)
    requires e.Lost? ==> s.active.value.reason == Some(e.reason)
    ensures var a := s.active.value;
            TailOk(next, claims, ends + [e],
                   tail + [if e.Won? then Completed(a.target.pair, a.auth.hash)
                           else RolledBack(a.previous.pair, a.auth.hash)])
  {
    hide ScanRows;
    hide Reasons;
    var a := s.active.value;
    var row := if e.Won? then Completed(a.target.pair, a.auth.hash) else RolledBack(a.previous.pair, a.auth.hash);
    EndIsTruthful(s, next, claims, ends, ScanRows(tail), Reasons(tail), e);
    AppendRow(tail, row);
    hide Truthful;
    hide PhaseOk;
    hide Current;
  }

  lemma EndIsTruthful(s: State, next: State, claims: seq<Active>, ends: seq<End>, sc: Scan, reasons: seq<string>,
                      e: End)
    requires PhaseOk(s) && Current(s, claims, ends) && s.active.Some? && Truthful(s, claims, ends, sc, reasons)
    requires next.active.None?
    requires e.Won? ==> InPhase(s, Draining)
    requires e.Lost? ==> s.active.value.reason == Some(e.reason)
    ensures var a := s.active.value;
            var row := if e.Won? then Completed(a.target.pair, a.auth.hash)
                       else RolledBack(a.previous.pair, a.auth.hash);
            Truthful(next, claims, ends + [e], ScanRow(sc, row), reasons)
  {
    var a := s.active.value;
    var c := claims[|claims| - 1];
    assert a.target == c.target && a.previous == c.previous && a.auth == c.auth && |claims| == |ends| + 1;
    hide Current;
    hide PhaseOk;
    hide StagesBelow;
    var all := ends + [e];
    assert all[|all| - 1] == e && |all| == |claims|;
  }

  lemma EndKeepsTail(s: State, op: Op, claims: seq<Active>, ends: seq<End>, tail: seq<Row>, e: End)
    requires PhaseOk(s) && Fits(s, op) && Mutate(s, op).Commit?
    requires (op.Complete? && e == Won) || (op.Restore? && op.cause.Some? && e == Lost(op.cause.value))
    requires Current(s, claims, ends) && TailOk(s, claims, ends, tail)
    ensures TailOk(Mutate(s, op).next, claims, ends + [e], tail + Mutate(s, op).logged)
  {
    var r := Mutate(s, op);
    assert r.next.active.None? && s.active.Some?
           && r.logged == [if e.Won? then Completed(s.active.value.target.pair, s.active.value.auth.hash)
                           else RolledBack(s.active.value.previous.pair, s.active.value.auth.hash)] by {
      hide TailOk;
      hide PhaseOk;
      hide Current;
    }
    hide Mutate;
    hide TailOk;
    hide PhaseOk;
    hide Current;
    EndRow(s, r.next, claims, ends, tail, e);
  }

  lemma NeutralKeepsTail(s: State, next: State, claims: seq<Active>, ends: seq<End>, tail: seq<Row>, row: Row)
    requires claims != [] && TailOk(s, claims, ends, tail) && Neutral(row)
    requires next.active == s.active && next.route == s.route
    ensures TailOk(next, claims, ends, tail + [row])
  {
    assert forall sc: Scan :: ScanRow(sc, row) == sc;
    AppendRow(tail, row);
    hide ScanRows;
    hide Reasons;
  }

  /** What one committed closure other than a claim adds to the history of releases. */
  lemma StepEnds(w: World, op: Op)
    requires Mutate(w.s, op).Commit? && (op.Claim? ==> Mutate(w.s, op).logged == [])
    ensures var v, r := Step(w, op), Mutate(w.s, op);
            && v.s == r.next && v.h.audit == w.h.audit + r.logged && v.h.claims == w.h.claims
            && (r.logged == [] ==> v.h.ends == w.h.ends)
            && (!op.Complete? && !op.Restore? ==> v.h.ends == w.h.ends)
            && (op.Complete? ==> v.h.ends == w.h.ends + [Won])
            && (op.Restore? ==> op.cause.Some? && v.h.ends == w.h.ends + [Lost(op.cause.value)])
  {
    if Mutate(w.s, op).logged != [] {
      RowsByOp(w.s, op);
    } else {
      assert w.h.audit + [] == w.h.audit;
    }
    EndsLog(w.s, op);
    hide Mutate;
  }

  lemma EndsLog(s: State, op: Op)
    requires Mutate(s, op).Commit?
    ensures op.Complete? || op.Restore? ==> Mutate(s, op).logged != []
    ensures op.Restore? ==> op.cause.Some?
  {
  }

  lemma TailGrows(w: World, op: Op, tail: seq<Row>)
    requires PhaseOk(w.s) && Current(w.s, w.h.claims, w.h.ends) && Fits(w.s, op)
    requires Mutate(w.s, op).Commit? && Mutate(w.s, op).logged != [] && !op.Claim?
    requires w.h.claims != [] && TailOk(w.s, w.h.claims, w.h.ends, tail)
    ensures var v := Step(w, op);
            v.h.claims == w.h.claims && TailOk(v.s, v.h.claims, v.h.ends, tail + Mutate(w.s, op).logged)
  {
    var r := Mutate(w.s, op);
    RowsByOp(w.s, op);
    StepEnds(w, op);
    hide Step;
    hide Mutate;
    hide TailOk;
    hide Fits;
    hide PhaseOk;
    hide Current;
    if op.BeginRollback? || op.Promote? || op.CommitStable? {
      ProgressKeepsTail(w.s, op, w.h.claims, w.h.ends, tail);
    } else if op.Complete? {
      EndKeepsTail(w.s, op, w.h.claims, w.h.ends, tail, Won);
    } else if op.Restore? {
      EndKeepsTail(w.s, op, w.h.claims, w.h.ends, tail, Lost(op.cause.value));
    } else {
      NeutralKeepsTail(w.s, r.next, w.h.claims, w.h.ends, tail, r.logged[0]);
      assert r.logged == [r.logged[0]];
    }
  }

  lemma ClaimGivesRow(s: State, check: Time, deadline: Time)
    requires PendingOk(s) && ClaimOp(s, check, deadline).Commit? && ClaimOp(s, check, deadline).logged != []
    ensures var r := ClaimOp(s, check, deadline);
            && r.next.active.Some? && r.next.route.weight == 0
            && r.next.active.value.phase == Preparing && r.next.active.value.reason.None?
            && r.logged == [Started(r.next.active.value.target.pair, r.next.active.value.auth.hash)]
  {
    ClaimCorrect(s, check, deadline);
    ClaimFrame(s, check, deadline);
    hide ClaimOp;
    hide PendingOk;
    hide ValidAuth;
  }

  lemma ClaimKeepsLog(w: World, op: Op)
    requires PendingOk(w.s) && op.Claim? && Mutate(w.s, op).Commit? && Mutate(w.s, op).logged != []
    ensures LogOk(Step(w, op))
  {
    var r := ClaimOp(w.s, op.check, op.deadline);
    assert Mutate(w.s, op) == r;
    hide Mutate;
    hide Step;
    hide PendingOk;
    hide ClaimOp;
    ClaimStep(w, op);
    ClaimGivesRow(w.s, op.check, op.deadline);
    hide LogOk;
    StartGivesLog(w, Step(w, op));
  }

  /** A start at the end of the log has nothing to explain yet. */
  lemma StartGivesLog(w: World, v: World)
    requires v.s.active.Some? && v.s.route.weight == 0
    requires v.s.active.value.phase == Preparing && v.s.active.value.reason.None?
    requires var c := v.s.active.value;
             v.h.claims == w.h.claims + [c] && v.h.audit == w.h.audit + [Started(c.target.pair, c.auth.hash)]
    ensures LogOk(v)
  {
    AppendRow(w.h.audit, v.h.audit[|w.h.audit|]);
    hide LatestStart;
    assert v.h.audit[|w.h.audit| + 1..] == [];
  }

  lemma StepKeepsLog(w: World, op: Op)
    requires RecordInv(w.s) && ReleasesOk(w) && LogOk(w) && Fits(w.s, op)
    ensures LogOk(Step(w, op))
  {
    if Mutate(w.s, op).Raise? {
      hide Mutate;
    } else if Mutate(w.s, op).logged == [] {
      SilentKeepsLog(w, op);
    } else if op.Claim? {
      ClaimKeepsLog(w, op);
    } else {
      RowKeepsLog(w, op);
    }
  }

  lemma SilentKeepsLog(w: World, op: Op)
    requires PhaseOk(w.s) && LogOk(w) && Fits(w.s, op) && Mutate(w.s, op).Commit? && Mutate(w.s, op).logged == []
    ensures LogOk(Step(w, op))
  {
    hide Step;
    hide Mutate;
    hide TailOk;
    hide LatestStart;
    hide Fits;
    hide PhaseOk;
    StepEnds(w, op);
    assert w.h.audit + [] == w.h.audit;
    var start := LatestStart(w.h.audit);
    if start.Some? {
      SilentKeepsTail(w.s, op, w.h.claims, w.h.ends, w.h.audit[start.value + 1..]);
    }
  }

  lemma LogGrows(w: World, v: World, row: Row)
    requires LogOk(w) && !row.Started? && v.h.audit == w.h.audit + [row] && v.h.claims == w.h.claims
    requires LatestStart(w.h.audit).Some? ==>
               w.h.claims != []
               && TailOk(v.s, v.h.claims, v.h.ends, w.h.audit[LatestStart(w.h.audit).value + 1..] + [row])
    ensures LogOk(v)
  {
    hide TailOk;
    hide LatestStart;
    hide ScanRows;
    hide Reasons;
    AppendRow(w.h.audit, row);
    var start := LatestStart(w.h.audit);
    if start.Some? {
      assert v.h.audit[start.value + 1..] == w.h.audit[start.value + 1..] + [row];
    }
  }

  lemma RowKeepsLog(w: World, op: Op)
    requires PhaseOk(w.s) && Current(w.s, w.h.claims, w.h.ends) && LogOk(w) && Fits(w.s, op)
    requires Mutate(w.s, op).Commit? && Mutate(w.s, op).logged != [] && !op.Claim?
    ensures LogOk(Step(w, op))
  {
    hide Step;
    hide Mutate;
    hide TailOk;
    hide Fits;
    hide PhaseOk;
    hide Current;
    var r := Mutate(w.s, op);
    RowsByOp(w.s, op);
    StepEnds(w, op);
    assert r.logged == [r.logged[0]];
    var start := LatestStart(w.h.audit);
    if start.Some? {
      TailGrows(w, op, w.h.audit[start.value + 1..]);
    }
    LogGrows(w, Step(w, op), r.logged[0]);
    hide LogOk;
  }

  // ----- what a bounded window still shows -----------------------------------------------------

  lemma {:induction false} StartInWindow(full: seq<Row>, k: nat)
    requires k <= |full|
    ensures LatestStart(full[k..]) ==
              match LatestStart(full)
              case None => None
              case Some(i) => if i >= k then Some(i - k) else None
  {
    if k < |full| {
      var n := |full| - 1;
      assert full[k..][..n - k] == full[..n][k..];
      StartInWindow(full[..n], k);
    } else {
      assert full[k..] == [];
    }
  }

  /** The start of the latest release is still among the retained rows. */
  predicate Retained(w: World) {
    LatestStart(w.h.audit).Some? && |w.h.audit| - LatestStart(w.h.audit).value <= HISTORY
  }

  lemma WindowShowsRelease(w: World)
    requires WindowsOk(w)
    ensures LatestStart(w.s.audit).Some? <==> Retained(w)
    ensures Retained(w) ==>
              w.s.audit[LatestStart(w.s.audit).value..] == w.h.audit[LatestStart(w.h.audit).value..]
  {
    var k := if |w.h.audit| <= HISTORY then 0 else |w.h.audit| - HISTORY;
    assert w.s.audit == w.h.audit[k..];
    StartInWindow(w.h.audit, k);
  }

  lemma {:induction false} LostAreBelow(claims: seq<Active>, ends: seq<End>, v: nat)
    requires |ends| <= |claims|
    requires forall i :: 0 <= i < |ends| ==> claims[i].target.pair.version < v
    ensures forall i :: 0 <= i < |LostReleases(claims, ends)| ==> LostReleases(claims, ends)[i].pair.version < v
  {
    if ends != [] {
      LostAreBelow(claims, ends[..|ends| - 1], v);
    }
  }

  lemma {:induction false} NoFailureOf(failed: seq<Failure>, pair: Pair)
    requires forall i :: 0 <= i < |failed| ==> failed[i].pair != pair
    ensures FailuresOf(failed, pair) == []
  {
    if failed != [] {
      NoFailureOf(failed[..|failed| - 1], pair);
    }
  }

  /** The failure record of the latest release is the only one of its pair, and is retained. */
  lemma LatestFailureIsUnique(w: World)
    requires WindowsOk(w) && ReleasesOk(w)
    requires w.s.active.None? && w.h.ends != [] && w.h.ends[|w.h.ends| - 1].Lost?
    ensures var c := w.h.claims[|w.h.claims| - 1];
            FailuresOf(w.s.failed, c.target.pair) == [Failure(c.target.pair, w.h.ends[|w.h.ends| - 1].reason)]
  {
    var claims, ends := w.h.claims, w.h.ends;
    var n := |ends| - 1;
    LastLost(w);
    WindowOfFailures(w);
    hide WindowsOk;
    hide ReleasesOk;
    hide FailuresOf;
    hide LostReleases;
    hide Last;
    FailureOfLast(claims, ends, w.s.failed);
  }

  lemma FailureOfLast(claims: seq<Active>, ends: seq<End>, failed: seq<Failure>)
    requires ends != [] && |claims| == |ends| && ends[|ends| - 1].Lost?
    requires var n := |ends| - 1;
             && failed == Last(LostReleases(claims, ends[..n])
                               + [Failure(claims[n].target.pair, ends[n].reason)], HISTORY)
             && forall i :: 0 <= i < n ==> claims[i].target.pair.version < claims[n].target.pair.version
    ensures FailuresOf(failed, claims[|ends| - 1].target.pair)
            == [Failure(claims[|ends| - 1].target.pair, ends[|ends| - 1].reason)]
  {
    hide FailuresOf;
    hide Last;
    var n := |ends| - 1;
    LostAreBelow(claims, ends[..n], claims[n].target.pair.version);
    hide LostReleases;
    NewestFailureIsUnique(LostReleases(claims, ends[..n]), Failure(claims[n].target.pair, ends[n].reason));
  }

  lemma WindowOfFailures(w: World)
    requires WindowsOk(w)
    ensures w.s.failed == Last(w.h.failed, HISTORY)
  {
  }

  lemma LastLost(w: World)
    requires ReleasesOk(w) && w.s.active.None? && w.h.ends != [] && w.h.ends[|w.h.ends| - 1].Lost?
    ensures var n := |w.h.ends| - 1;
            && |w.h.claims| == n + 1
            && w.h.failed
               == LostReleases(w.h.claims, w.h.ends[..n])
                  + [Failure(w.h.claims[n].target.pair, w.h.ends[n].reason)]
            && forall i :: 0 <= i < n ==> w.h.claims[i].target.pair.version < w.h.claims[n].target.pair.version
  {
    hide Baselines;
    hide Sound;
    hide WonPairs;
  }

  lemma NewestFailureIsUnique(before: seq<Failure>, f: Failure)
    requires forall i :: 0 <= i < |before| ==> before[i].pair.version < f.pair.version
    ensures FailuresOf(Last(before + [f], HISTORY), f.pair) == [f]
  {
    var failed := Last(before + [f], HISTORY);
    var older := failed[..|failed| - 1];
    forall i | 0 <= i < |older|
      ensures older[i].pair != f.pair
    {
      assert older[i] == before[i + |before| + 1 - |failed|];
    }
    NoFailureOf(older, f.pair);
  }

  ghost predicate IsLatest(w: World, e: Bound) {
    && w.h.claims != []
    && var c := w.h.claims[|w.h.claims| - 1];
    && c.target.pair == e.target.pair && c.auth.hash == e.authId
  }

  /**
   * Exactness of the automatic observer, for every configured release: it
   * reports PASS exactly when that release is the latest, its start is still
   * retained and it was promoted through 10, 25, 50, 100; FAIL, with the
   * durable reason, exactly when it was rolled back to that baseline; and
   * nothing while it is in progress and not blocked. Once the start is lost
   * it never reports PASS or FAIL.
   */
  lemma ObserverIsExact(w: World, c: Config)
    requires RecordInv(w.s) && WindowsOk(w) && ReleasesOk(w) && LogOk(w)
    requires c.policyTest && c.version == c.expected.target.pair.version
    ensures var e, r := c.expected, Observe(c, w.s);
            var latest := w.s.active.None? && Retained(w) && IsLatest(w, e);
            && (r.Pass? <==> latest && w.h.ends[|w.h.ends| - 1].Won?)
            && (r.Pass? ==> r.seen == ALL_STAGES)
            && (r.Fail? <==> latest && w.h.ends[|w.h.ends| - 1].Lost?
                             && w.h.claims[|w.h.claims| - 1].previous.pair == e.previous)
            && (r.Fail? ==> r.reason == w.h.ends[|w.h.ends| - 1].reason)
            && (r.Raised? <==> w.s.active.Some? && Binding(w.s.active.value) != Some(e))
            && (r.InProgress? <==> w.s.active.Some? && Binding(w.s.active.value) == Some(e) && Retained(w)
                                   && w.s.active.value.phase != Blocked)
            && (w.s.active.Some? && Binding(w.s.active.value) == Some(e) && Retained(w) && InPhase(w.s, Blocked) ==>
                  r.Inconclusive? && r.why == "controller_blocked")
  {
    WindowShowsRelease(w);
    var start := LatestStart(w.s.audit);
    if start.Some? {
      var full := LatestStart(w.h.audit).value;
      assert w.s.audit[start.value..][1..] == w.h.audit[full..][1..] == w.h.audit[full + 1..];
      assert w.s.audit[start.value..][0] == w.h.audit[full..][0];
    }
    if w.s.active.Some? {
      ActiveObserved(w, c);
    } else {
      IdleObserved(w, c);
    }
    hide Observe;
    hide Increasing;
    hide Baselines;
    hide Sound;
  }

  lemma ActiveObserved(w: World, c: Config)
    requires PhaseOk(w.s) && ReleasesOk(w) && LogOk(w) && w.s.active.Some?
    requires c.policyTest && c.version == c.expected.target.pair.version
    requires LatestStart(w.s.audit).Some? <==> Retained(w)
    requires Retained(w) ==>
               w.s.audit[LatestStart(w.s.audit).value..][1..] == w.h.audit[LatestStart(w.h.audit).value + 1..]
               && w.s.audit[LatestStart(w.s.audit).value..][0] == w.h.audit[LatestStart(w.h.audit).value]
    ensures var e, r := c.expected, Observe(c, w.s);
            && !r.Pass? && !r.Fail?
            && (r.Raised? <==> Binding(w.s.active.value) != Some(e))
            && (r.InProgress? <==> Binding(w.s.active.value) == Some(e) && Retained(w)
                                   && w.s.active.value.phase != Blocked)
            && (Binding(w.s.active.value) == Some(e) && Retained(w) && InPhase(w.s, Blocked) ==>
                  r.Inconclusive? && r.why == "controller_blocked")
  {
    hide LatestStart;
    hide JudgeIdle;
    hide Reasons;
    hide WonPairs;
    hide LostReleases;
    hide ScanRows;
    hide ValidAuth;
    hide Increasing;
    hide Baselines;
    hide Sound;
  }

  lemma IdleObserved(w: World, c: Config)
    requires PhaseOk(w.s) && WindowsOk(w) && ReleasesOk(w) && LogOk(w) && w.s.active.None?
    requires c.policyTest && c.version == c.expected.target.pair.version
    requires LatestStart(w.s.audit).Some? <==> Retained(w)
    requires Retained(w) ==>
               w.s.audit[LatestStart(w.s.audit).value..][1..] == w.h.audit[LatestStart(w.h.audit).value + 1..]
               && w.s.audit[LatestStart(w.s.audit).value..][0] == w.h.audit[LatestStart(w.h.audit).value]
    ensures var e, r := c.expected, Observe(c, w.s);
            var latest := Retained(w) && IsLatest(w, e);
            && !r.Raised? && !r.InProgress?
            && (r.Pass? <==> latest && w.h.ends[|w.h.ends| - 1].Won?)
            && (r.Pass? ==> r.seen == ALL_STAGES)
            && (r.Fail? <==> latest && w.h.ends[|w.h.ends| - 1].Lost?
                             && w.h.claims[|w.h.claims| - 1].previous.pair == e.previous)
            && (r.Fail? ==> r.reason == w.h.ends[|w.h.ends| - 1].reason)
  {
    if Retained(w) && IsLatest(w, c.expected) {
      LatestIdleObserved(w, c);
    } else {
      OtherIdleObserved(w, c);
    }
    hide Observe;
    hide LogOk;
    hide PhaseOk;
    hide WindowsOk;
    hide ReleasesOk;
  }

  lemma LatestIdleObserved(w: World, c: Config)
    requires PhaseOk(w.s) && WindowsOk(w) && ReleasesOk(w) && LogOk(w) && w.s.active.None?
    requires c.policyTest && c.version == c.expected.target.pair.version
    requires LatestStart(w.s.audit).Some? && Retained(w) && IsLatest(w, c.expected)
    requires w.s.audit[LatestStart(w.s.audit).value..][1..] == w.h.audit[LatestStart(w.h.audit).value + 1..]
    requires w.s.audit[LatestStart(w.s.audit).value..][0] == w.h.audit[LatestStart(w.h.audit).value]
    ensures var e, r := c.expected, Observe(c, w.s);
            && w.h.ends != [] && !r.Raised? && !r.InProgress?
            && (r.Pass? <==> w.h.ends[|w.h.ends| - 1].Won?)
            && (r.Pass? ==> r.seen == ALL_STAGES)
            && (r.Fail? <==> w.h.ends[|w.h.ends| - 1].Lost?
                             && w.h.claims[|w.h.claims| - 1].previous.pair == e.previous)
            && (r.Fail? ==> r.reason == w.h.ends[|w.h.ends| - 1].reason)
  {
    hide ReleasesOk;
    hide WindowsOk;
    hide PhaseOk;
    hide LogOk;
    hide LatestStart;
    hide TailOk;
    hide ScanRows;
    hide Observe;
    hide JudgeIdle;
    hide FailuresOf;
    var tail := w.h.audit[LatestStart(w.h.audit).value + 1..];
    IdleMeans(w);
    LogMeans(w);
    if w.h.ends[|w.h.ends| - 1].Lost? {
      LatestFailureIsUnique(w);
    }
    ObservedAtStart(w.s, c);
    JudgeIdleIsExact(w.s, c.expected, w.h.claims, w.h.ends, tail);
  }

  lemma IdleMeans(w: World)
    requires ReleasesOk(w) && w.s.active.None?
    ensures Current(w.s, w.h.claims, w.h.ends) && |w.h.claims| == |w.h.ends|
  {
  }

  lemma LogMeans(w: World)
    requires LogOk(w) && LatestStart(w.h.audit).Some?
    ensures var i := LatestStart(w.h.audit).value;
            && w.h.claims != []
            && var c := w.h.claims[|w.h.claims| - 1];
            && w.h.audit[i] == Started(c.target.pair, c.auth.hash)
            && TailOk(w.s, w.h.claims, w.h.ends, w.h.audit[i + 1..]) && !ScanRows(w.h.audit[i + 1..]).conflict
  {
    hide LatestStart;
    hide ScanRows;
  }

  /** What the observer looks at when the record is idle and the latest start is the expected one. */
  lemma ObservedAtStart(s: State, c: Config)
    requires c.policyTest && c.version == c.expected.target.pair.version && s.active.None?
    requires LatestStart(s.audit).Some?
    requires var rows := s.audit[LatestStart(s.audit).value..];
             rows[0] == Started(c.expected.target.pair, c.expected.authId) && !ScanRows(rows[1..]).conflict
    ensures var tail := s.audit[LatestStart(s.audit).value..][1..];
            Observe(c, s) == JudgeIdle(s, c.expected, tail, ScanRows(tail))
  {
    hide ScanRows;
    hide LatestStart;
    hide JudgeIdle;
  }

  lemma OtherIdleObserved(w: World, c: Config)
    requires LogOk(w) && w.s.active.None? && c.policyTest && c.version == c.expected.target.pair.version
    requires LatestStart(w.s.audit).Some? <==> Retained(w)
    requires Retained(w) ==>
               w.s.audit[LatestStart(w.s.audit).value..][0] == w.h.audit[LatestStart(w.h.audit).value]
    requires !(Retained(w) && IsLatest(w, c.expected))
    ensures Observe(c, w.s).Inconclusive?
  {
    hide TailOk;
    hide JudgeIdle;
    hide ScanRows;
    hide LatestStart;
  }

  lemma JudgeIdleIsExact(s: State, e: Bound, claims: seq<Active>, ends: seq<End>, tail: seq<Row>)
    requires PhaseOk(s) && s.active.None? && claims != [] && Current(s, claims, ends) && TailOk(s, claims, ends, tail)
    requires claims[|claims| - 1].target.pair == e.target.pair && claims[|claims| - 1].auth.hash == e.authId
    requires ends[|ends| - 1].Lost? ==>
               FailuresOf(s.failed, e.target.pair) == [Failure(e.target.pair, ends[|ends| - 1].reason)]
    ensures var r := JudgeIdle(s, e, tail, ScanRows(tail));
            && !r.Raised? && !r.InProgress?
            && (r.Pass? <==> ends[|ends| - 1].Won?) && (r.Pass? ==> r.seen == ALL_STAGES)
            && (r.Fail? <==> ends[|ends| - 1].Lost? && claims[|claims| - 1].previous.pair == e.previous)
            && (r.Fail? ==> r.reason == ends[|ends| - 1].reason)
  {
    hide ScanRows;
    hide Reasons;
    hide FailuresOf;
  }
}
