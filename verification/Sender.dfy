/**
 * The bounded traffic loop of the end-to-end runner. Every answer from outside
 * (clocks, record reads, readiness, finished requests) is an input; every
 * record read, submission and collected answer is logged.
 */
module Sender {
  import opened Bounded
  import opened ReleaseState
  import opened Authorization
  import opened Lifecycle
  import Observers

  datatype Mode = Observe | Baseline | PolicyTest

  /** `expected` is the exact release of an automatic run. */
  datatype Config = Config(mode: Mode, version: nat, rps: nat, concurrency: nat, requests: nat, duration: nat,
                           retries: nat, synthetic: bool, expected: Option<Bound>)

  datatype Lane = Stable | Canary | Neither
  datatype Row = Row(status: int, lane: Lane)
  datatype Counts = Counts(requests: nat, errors: nat, stable: nat, canary: nat)

  /** A submission happens between two clock readings: the send check and the one that sets the next send time. */
  datatype Event = StateRead(s: State) | Submitted(id: nat, from: Time, to: Time) | Collected(id: nat, row: Row)

  datatype Report = Passed | Failed | Blocked

  /** How the loop ends; Raised stands for both exception handlers, Refused for a bad configuration. */
  datatype Ending = Reported(report: Report, reason: string) | Raised | Refused

  /** What an observation of a record says; Rejects is a raised error. */
  datatype Glance = Continues(seen: seq<nat>) | Reports(report: Report, reason: string, seen: seq<nat>) | Rejects

  /** A record read: answered, not reachable, or raising anything else. */
  datatype Reading = Got(s: State) | Unavailable | Broken

  /** A check of a deployed backend: it answers, or raises anything. */
  datatype Check = Fits | Differs | Throws

  /**
   * The answers met in one turn of the loop, in the order in which they are
   * asked for. `plain` is the glance of a run that is not automatic; `again`
   * is the reading that makes the loop poll at once.
   */
  datatype Turn = Turn(cancelled: bool, done: map<nat, Row>,
                       pollAt: Time, poll: Reading, elapsed: Time, polledAt: Time, plain: Glance, stable: Check,
                       sendAt: Time, first: Reading, backendsReady: bool, payloadOk: bool,
                       second: Reading, cancelledLate: bool, sentAt: Time, again: Time)

  /** Go on with the turn, start the next one, or leave the loop. */
  datatype Flow = Go | Again | Stop(ending: Ending)

  predicate ValidConfig(c: Config) {
    && c.rps <= 20 && 1 <= c.concurrency <= 8 && 1 <= c.requests <= 2000 && 1 <= c.duration <= 900 && c.retries <= 3
    && (c.mode.Observe? <==> c.rps == 0)
    && (c.mode.PolicyTest? ==> c.synthetic)
  }

  function ObserverConfig(c: Config): Observers.Config
    requires c.expected.Some?
  {
    Observers.Config(c.mode.PolicyTest?, c.version, c.expected.value)
  }

  /** Permission to send: the exact release is ramping and stable is still its baseline. */
  predicate ExactRamp(c: Config, s: State) {
    c.expected.Some? ==>
      && c.mode.PolicyTest? && InPhase(s, Ramp) && IsStage(s.route.weight)
      && Binding(s.active.value) == Some(c.expected.value)
      && s.stable.Some? && s.stable.value.pair == c.expected.value.previous
  }

  /** The exact observer for automatic runs; otherwise the plain one, whose answer is an input. */
  function GlanceAt(c: Config, s: State, plain: Glance): Glance {
    if c.expected.None? then plain
    else
      match Observers.Observe(ObserverConfig(c), s)
      case Raised => Rejects
      case InProgress(seen) => Continues(seen)
      case Inconclusive(why, seen) => Reports(Report.Blocked, why, seen)
      case Pass(seen) => Reports(Passed, "release_completed", seen)
      case Fail(reason, seen) => Reports(Failed, reason, seen)
  }

  /** Idle, with the tested version as stable: what a baseline run needs, at the start and at every later read. */
  predicate IsBaseline(c: Config, s: State) {
    s.active.None? && s.stable.Some? && s.stable.value.pair.version == c.version && s.route.weight == 0
  }

  /** The first read of a run that is not automatic: otherwise the version must be under way or still to come. */
  predicate Admits(c: Config, s: State) {
    if c.mode.Baseline? then IsBaseline(c, s)
    else
      && (forall i :: 0 <= i < |s.processed| ==> s.processed[i].version != c.version)
      && (forall i :: 0 <= i < |s.failed| ==> s.failed[i].pair.version != c.version)
      && (s.active.Some? ==> s.active.value.target.pair.version == c.version)
      && (s.active.Some? || c.version > s.highest
          || exists i :: 0 <= i < |s.pending| && s.pending[i].event.version == c.version)
  }

  /** What is turned away: a version that was released before, that another release blocks, or that is over. */
  lemma AdmitsExactly(c: Config, s: State)
    requires !c.mode.Baseline?
    ensures var v := c.version;
            !Admits(c, s) <==>
              || (exists p :: p in s.processed && p.version == v) || (exists f :: f in s.failed && f.pair.version == v)
              || (s.active.Some? && s.active.value.target.pair.version != v)
              || (s.active.None? && v <= s.highest && forall x :: x in s.pending ==> x.event.version != v)
  {
    assert forall i :: 0 <= i < |s.processed| ==> s.processed[i] in s.processed;
    assert forall i :: 0 <= i < |s.failed| ==> s.failed[i] in s.failed;
    assert forall i :: 0 <= i < |s.pending| ==> s.pending[i] in s.pending;
  }

  /** Traffic is only wanted at the baseline, or while the tested version is ramping. */
  predicate WantsTraffic(c: Config, s: State) {
    c.mode.Baseline? || (c.mode.PolicyTest? && InPhase(s, Ramp) && s.active.value.target.pair.version == c.version)
  }

  // ----- what the log has to say --------------------------------------------------------------

  function SubmittedIds(log: seq<Event>): seq<nat> {
    if log == [] then []
    else SubmittedIds(log[..|log| - 1])
         + (if log[|log| - 1].Submitted? then [log[|log| - 1].id] else [])
  }

  function CollectedIds(log: seq<Event>): seq<nat> {
    if log == [] then []
    else CollectedIds(log[..|log| - 1])
         + (if log[|log| - 1].Collected? then [log[|log| - 1].id] else [])
  }

  function Count(counts: Counts, row: Row): Counts {
    var good := 200 <= row.status < 300;
    Counts(counts.requests + 1,
           counts.errors + (if !good || row.lane.Neither? then 1 else 0),
           counts.stable + (if row.lane.Stable? then 1 else 0),
           counts.canary + (if row.lane.Canary? then 1 else 0))
  }

  function Tally(log: seq<Event>): Counts {
    if log == [] then Counts(0, 0, 0, 0)
    else
      var before := Tally(log[..|log| - 1]);
      if log[|log| - 1].Collected? then Count(before, log[|log| - 1].row) else before
  }

  // What the counters are, without counting.

  predicate IsBad(row: Row) {
    row.status < 200 || row.status >= 300 || row.lane.Neither?
  }

  function Answered(log: seq<Event>): set<nat> {
    set k: nat | k < |log| && log[k].Collected?
  }

  function BadAnswers(log: seq<Event>): set<nat> {
    set k: nat | k < |log| && log[k].Collected? && IsBad(log[k].row)
  }

  function AnswersOf(log: seq<Event>, lane: Lane): set<nat> {
    set k: nat | k < |log| && log[k].Collected? && log[k].row.lane == lane
  }

  /** The four counters are the numbers of all collected answers, the bad ones, and those of each lane. */
  ghost predicate CountsAnswers(counts: Counts, log: seq<Event>) {
    && counts.requests == |Answered(log)| && counts.errors == |BadAnswers(log)|
    && counts.stable == |AnswersOf(log, Stable)| && counts.canary == |AnswersOf(log, Canary)|
  }

  lemma {:induction false} TallyCounts(log: seq<Event>)
    ensures CountsAnswers(Tally(log), log)
  {
    if log == [] {
      assert Answered(log) == {} && BadAnswers(log) == {} && AnswersOf(log, Stable) == {}
             && AnswersOf(log, Canary) == {};
    } else {
      var before, e := log[..|log| - 1], log[|log| - 1];
      assert log == before + [e];
      TallyCounts(before);
      AnsweredGrows(before, e);
      BadGrows(before, e);
      LaneGrows(before, e, Stable);
      LaneGrows(before, e, Canary);
      hide Answered;
      hide BadAnswers;
      hide AnswersOf;
    }
  }

  lemma AnsweredGrows(log: seq<Event>, e: Event)
    ensures |Answered(log + [e])| == |Answered(log)| + (if e.Collected? then 1 else 0)
  {
    assert Answered(log + [e]) == Answered(log) + (if e.Collected? then {|log|} else {});
  }

  lemma BadGrows(log: seq<Event>, e: Event)
    ensures |BadAnswers(log + [e])| == |BadAnswers(log)| + (if e.Collected? && IsBad(e.row) then 1 else 0)
  {
    hide IsBad;
    assert BadAnswers(log + [e]) == BadAnswers(log) + (if e.Collected? && IsBad(e.row) then {|log|} else {});
  }

  lemma LaneGrows(log: seq<Event>, e: Event, lane: Lane)
    ensures |AnswersOf(log + [e], lane)|
            == |AnswersOf(log, lane)| + (if e.Collected? && e.row.lane == lane then 1 else 0)
  {
    assert AnswersOf(log + [e], lane)
           == AnswersOf(log, lane) + (if e.Collected? && e.row.lane == lane then {|log|} else {});
  }

  /** At every moment: within the request budget, and never more than `concurrency` in flight. */
  ghost predicate WithinLimits(c: Config, log: seq<Event>) {
    forall k :: 0 <= k <= |log| ==>
      var sent, back := |SubmittedIds(log[..k])|, |CollectedIds(log[..k])|;
      sent <= c.requests && 0 <= sent - back <= c.concurrency
  }

  /** Submissions are at least 1/rps apart. */
  ghost predicate Spaced(c: Config, log: seq<Event>)
    requires c.rps > 0
  {
    forall i, j :: 0 <= i < j < |log| && log[i].Submitted? && log[j].Submitted? ==>
      log[j].from >= log[i].to + 1.0 / c.rps as real
  }

  /** Exactly this authorized release is ramping, and the stable pair is still the one it started from. */
  predicate Ramps(e: Bound, s: State) {
    && s.active.Some? && s.active.value.phase == Ramp && s.route.weight in {10, 25, 50, 100}
    && s.active.value.target == e.target && s.active.value.auth.hash == e.authId
    && s.active.value.previous.pair == e.previous
    && s.stable.Some? && s.stable.value.pair == e.previous
  }

  /** The newest record that was read. */
  function LastRead(log: seq<Event>): Option<State> {
    if log == [] then None
    else if log[|log| - 1].StateRead? then Some(log[|log| - 1].s)
    else LastRead(log[..|log| - 1])
  }

  /**
   * Every submission of an automatic run directly follows a read that shows the
   * release ramping; in any other policy test the newest read shows the tested
   * version ramping; in a baseline run it shows an idle record with the tested
   * version as stable; observation submits nothing.
   */
  ghost predicate Permitted(c: Config, log: seq<Event>) {
    forall k :: 0 <= k < |log| && log[k].Submitted? ==> PermittedAt(c, log[..k])
  }

  predicate PermittedAt(c: Config, before: seq<Event>) {
    && (c.expected.Some? ==>
          c.mode.PolicyTest? && before != [] && before[|before| - 1].StateRead?
          && Ramps(c.expected.value, before[|before| - 1].s))
    && !c.mode.Observe?
    && (c.mode.Baseline? ==>
          var s := LastRead(before);
          s.Some? && s.value.active.None? && s.value.route.weight == 0
          && s.value.stable.Some? && s.value.stable.value.pair.version == c.version)
    && (c.mode.PolicyTest? ==>
          var s := LastRead(before);
          s.Some? && s.value.active.Some? && s.value.active.value.phase == Ramp
          && (c.expected.None? ==> s.value.active.value.target.pair.version == c.version))
  }

  ghost predicate LogOk(c: Config, log: seq<Event>) {
    WithinLimits(c, log) && Permitted(c, log) && (if c.rps > 0 then Spaced(c, log) else SubmittedIds(log) == [])
  }

  lemma Append(log: seq<Event>, e: Event)
    ensures SubmittedIds(log + [e]) == SubmittedIds(log) + (if e.Submitted? then [e.id] else [])
    ensures CollectedIds(log + [e]) == CollectedIds(log) + (if e.Collected? then [e.id] else [])
    ensures Tally(log + [e]) == if e.Collected? then Count(Tally(log), e.row) else Tally(log)
  {
    assert (log + [e])[..|log|] == log;
  }

  lemma AppendWithinLimits(c: Config, log: seq<Event>, e: Event)
    requires WithinLimits(c, log)
    requires var sent, back := |SubmittedIds(log + [e])|, |CollectedIds(log + [e])|;
             sent <= c.requests && 0 <= sent - back <= c.concurrency
    ensures WithinLimits(c, log + [e])
  {
    var all := log + [e];
    forall k | 0 <= k <= |all|
      ensures var sent, back := |SubmittedIds(all[..k])|, |CollectedIds(all[..k])|;
              sent <= c.requests && 0 <= sent - back <= c.concurrency
    {
      if k <= |log| {
        assert all[..k] == log[..k];
      } else {
        assert all[..k] == all;
      }
    }
  }

  /** Requests are numbered as they are submitted, so each number is submitted once. */
  function Numbers(n: nat): (ids: seq<nat>)
    ensures |ids| == n && forall i :: 0 <= i < n ==> ids[i] == i
  {
    seq(n, i => i)
  }

  /** The counters and the futures agree with the log. */
  ghost predicate Accurate(log: seq<Event>, counts: Counts, futures: seq<nat>) {
    && counts == Tally(log)
    && counts.requests == |CollectedIds(log)|
    && SubmittedIds(log) == Numbers(|SubmittedIds(log)|)
    && multiset(CollectedIds(log)) + multiset(futures) == multiset(SubmittedIds(log))
  }

  /** No earlier submission is too close to one at `nextSend`. */
  ghost predicate Paced(c: Config, log: seq<Event>, nextSend: Time) {
    c.rps > 0 ==> forall k :: 0 <= k < |log| && log[k].Submitted? ==> log[k].to + 1.0 / c.rps as real <= nextSend
  }

  lemma NewestStays(log: seq<Event>, e: Event)
    ensures LastRead(log + [e]) == if e.StateRead? then Some(e.s) else LastRead(log)
  {
    assert (log + [e])[..|log|] == log;
  }

  lemma InFlight(log: seq<Event>, counts: Counts, futures: seq<nat>)
    requires Accurate(log, counts, futures)
    ensures |CollectedIds(log)| + |futures| == |SubmittedIds(log)| == counts.requests + |futures|
  {
    assert |multiset(CollectedIds(log)) + multiset(futures)| == |multiset(SubmittedIds(log))|;
  }

  lemma LimitsNow(c: Config, log: seq<Event>)
    requires WithinLimits(c, log)
    ensures |SubmittedIds(log)| <= c.requests
    ensures 0 <= |SubmittedIds(log)| - |CollectedIds(log)| <= c.concurrency
  {
    assert log[..|log|] == log;
  }

  lemma PermittedGrows(c: Config, log: seq<Event>, e: Event)
    requires Permitted(c, log)
    requires e.Submitted? ==> PermittedAt(c, log)
    ensures Permitted(c, log + [e])
  {
    hide PermittedAt;
    var all := log + [e];
    forall k | 0 <= k < |all| && all[k].Submitted?
      ensures PermittedAt(c, all[..k])
    {
      if k < |log| {
        assert all[..k] == log[..k];
      } else {
        assert all[..k] == log;
      }
    }
  }

  /**
   * Whatever a valid configuration says: never more than 2000 requests, 8 of
   * them in flight or 20 in a second; none in observation, and none in a policy
   * test without consent.
   */
  lemma HardLimits(c: Config, log: seq<Event>, k: nat)
    requires ValidConfig(c) && LogOk(c, log) && k <= |log|
    ensures |SubmittedIds(log[..k])| <= 2000 && |SubmittedIds(log[..k])| - |CollectedIds(log[..k])| <= 8
    ensures forall i, j :: 0 <= i < j < |log| && log[i].Submitted? && log[j].Submitted? ==>
              log[j].from - log[i].to >= 0.05
    ensures c.mode.Observe? || (c.mode.PolicyTest? && !c.synthetic) ==>
              forall i :: 0 <= i < |log| ==> !log[i].Submitted?
  {
    if c.rps > 0 {
      var gap := 1.0 / c.rps as real;
      assert gap * c.rps as real == 1.0;
      assert gap * 20.0 >= gap * c.rps as real;
    } else {
      NoneSubmitted(log);
    }
    hide SubmittedIds;
    hide CollectedIds;
    hide Permitted;
  }

  lemma {:induction false} NoneSubmitted(log: seq<Event>)
    requires SubmittedIds(log) == []
    ensures forall i :: 0 <= i < |log| ==> !log[i].Submitted?
  {
    if log != [] {
      NoneSubmitted(log[..|log| - 1]);
    }
  }

  /** What the checks of a turn give for a submission after them. */
  lemma ChecksPermit(c: Config, log: seq<Event>, s: State)
    requires LastRead(log) == Some(s)
    requires if c.mode.Baseline? then IsBaseline(c, s) else WantsTraffic(c, s) || (c.expected.Some? && ExactRamp(c, s))
    requires c.expected.Some? ==> log != [] && log[|log| - 1] == StateRead(s) && ExactRamp(c, s)
    ensures PermittedAt(c, log)
  {
    hide ValidAuth;
  }

  lemma SpacedGrows(c: Config, log: seq<Event>, nextSend: Time, e: Event)
    requires c.rps > 0 && e.Submitted? && Spaced(c, log) && Paced(c, log, nextSend) && nextSend <= e.from <= e.to
    ensures Spaced(c, log + [e]) && Paced(c, log + [e], e.to + 1.0 / c.rps as real)
  {
    var gap := 1.0 / c.rps as real;
    assert gap > 0.0;
  }

  lemma PacedGrows(c: Config, log: seq<Event>, nextSend: Time, e: Event)
    requires !e.Submitted? && Paced(c, log, nextSend)
    ensures Paced(c, log + [e], nextSend) && (c.rps > 0 && Spaced(c, log) ==> Spaced(c, log + [e]))
  {
  }

  /** Any other event keeps the log in order if the limits still hold. */
  lemma OtherKeepsLog(c: Config, log: seq<Event>, nextSend: Time, e: Event)
    requires !e.Submitted? && LogOk(c, log) && Paced(c, log, nextSend)
    requires e.Collected? ==> |CollectedIds(log)| < |SubmittedIds(log)|
    ensures LogOk(c, log + [e]) && Paced(c, log + [e], nextSend)
  {
    hide Permitted;
    hide Spaced;
    hide Paced;
    Append(log, e);
    LimitsNow(c, log);
    hide SubmittedIds;
    hide CollectedIds;
    AppendWithinLimits(c, log, e);
    hide WithinLimits;
    PermittedGrows(c, log, e);
    PacedGrows(c, log, nextSend, e);
  }

  lemma ReadKeepsLog(c: Config, log: seq<Event>, counts: Counts, futures: seq<nat>, nextSend: Time, s: State)
    requires LogOk(c, log) && Accurate(log, counts, futures) && Paced(c, log, nextSend)
    ensures LogOk(c, log + [StateRead(s)]) && Accurate(log + [StateRead(s)], counts, futures)
    ensures Paced(c, log + [StateRead(s)], nextSend)
  {
    hide LogOk;
    hide Paced;
    OtherKeepsLog(c, log, nextSend, StateRead(s));
    Append(log, StateRead(s));
    hide SubmittedIds;
    hide CollectedIds;
    hide Tally;
  }

  lemma CollectKeepsLog(c: Config, log: seq<Event>, counts: Counts, futures: seq<nat>, nextSend: Time, i: nat, row: Row)
    requires i < |futures|
    requires LogOk(c, log) && Accurate(log, counts, futures) && Paced(c, log, nextSend)
    ensures var next := log + [Collected(futures[i], row)];
            && LogOk(c, next) && Accurate(next, Count(counts, row), futures[..i] + futures[i + 1..])
            && Paced(c, next, nextSend)
  {
    hide LogOk;
    hide Paced;
    hide Count;
    var e := Collected(futures[i], row);
    InFlight(log, counts, futures);
    OtherKeepsLog(c, log, nextSend, e);
    Append(log, e);
    hide SubmittedIds;
    hide CollectedIds;
    hide Tally;
    CollectedOnce(log, futures, i);
    CountRequests(counts, row);
  }

  /** A collected future moves from one account to the other. */
  lemma CollectedOnce(log: seq<Event>, futures: seq<nat>, i: nat)
    requires i < |futures|
    ensures multiset(CollectedIds(log) + [futures[i]]) + multiset(futures[..i] + futures[i + 1..])
            == multiset(CollectedIds(log)) + multiset(futures)
  {
    hide CollectedIds;
    assert futures == futures[..i] + [futures[i]] + futures[i + 1..];
  }

  lemma CountRequests(counts: Counts, row: Row)
    ensures Count(counts, row).requests == counts.requests + 1
  {
  }

  lemma SubmitKeepsLog(c: Config, log: seq<Event>, counts: Counts, futures: seq<nat>, nextSend: Time, from: Time,
                       to: Time)
    requires LogOk(c, log) && Accurate(log, counts, futures) && Paced(c, log, nextSend)
    requires c.rps > 0 && nextSend <= from <= to
    requires |futures| < c.concurrency && counts.requests + |futures| < c.requests
    requires PermittedAt(c, log)
    ensures var id := counts.requests + |futures|;
            var next := log + [Submitted(id, from, to)];
            && id == |SubmittedIds(log)| && LogOk(c, next) && Accurate(next, counts, futures + [id])
            && Paced(c, next, to + 1.0 / c.rps as real)
  {
    hide PermittedAt;
    hide Permitted;
    hide Spaced;
    hide Paced;
    hide WithinLimits;
    hide SubmittedIds;
    hide CollectedIds;
    hide Tally;
    var id := counts.requests + |futures|;
    var e := Submitted(id, from, to);
    InFlight(log, counts, futures);
    PermittedGrows(c, log, e);
    SpacedGrows(c, log, nextSend, e);
    SubmitKeepsAccounts(c, log, counts, futures, e);
    hide Accurate;
  }

  lemma SubmitKeepsAccounts(c: Config, log: seq<Event>, counts: Counts, futures: seq<nat>, e: Event)
    requires WithinLimits(c, log) && Accurate(log, counts, futures)
    requires e.Submitted? && e.id == counts.requests + |futures|
    requires |futures| < c.concurrency && counts.requests + |futures| < c.requests
    ensures WithinLimits(c, log + [e]) && Accurate(log + [e], counts, futures + [e.id])
  {
    InFlight(log, counts, futures);
    Append(log, e);
    hide SubmittedIds;
    hide CollectedIds;
    hide Tally;
    AppendWithinLimits(c, log, e);
    hide WithinLimits;
    SubmittedOnce(CollectedIds(log), futures, SubmittedIds(log), e.id);
  }

  /** A submitted request joins both sides of the account, with the next number. */
  lemma SubmittedOnce(collected: seq<nat>, futures: seq<nat>, submitted: seq<nat>, id: nat)
    requires multiset(collected) + multiset(futures) == multiset(submitted)
    requires id == |submitted| && submitted == Numbers(id)
    ensures multiset(collected) + multiset(futures + [id]) == multiset(submitted + [id])
    ensures submitted + [id] == Numbers(id + 1)
  {
  }

  /** Some record that was read shows this verdict to the exact observer. */
  ghost predicate Witnessed(c: Config, log: seq<Event>, report: Report, reason: string)
    requires c.expected.Some?
  {
    exists k :: 0 <= k < |log| && log[k].StateRead? && Shows(c, log[k].s, report, reason)
  }

  predicate Shows(c: Config, s: State, report: Report, reason: string)
    requires c.expected.Some?
  {
    var v := Observers.Observe(Observers.Config(c.mode.PolicyTest?, c.version, c.expected.value), s);
    match report
    case Passed => v.Pass?
    case Failed => v.Fail? && v.reason == reason
    case Blocked => v.Inconclusive? && v.why == reason
  }

  /** An automatic run only passes or fails on what it has read. */
  ghost predicate Honest(c: Config, log: seq<Event>, ending: Ending) {
    c.expected.Some? && ending.Reported? && !ending.report.Blocked? ==>
      Witnessed(c, log, ending.report, ending.reason)
  }

  lemma WitnessStays(c: Config, log: seq<Event>, more: seq<Event>, ending: Ending)
    requires Honest(c, log, ending) && log <= more
    ensures Honest(c, more, ending)
  {
    hide Shows;
    if c.expected.Some? && ending.Reported? && !ending.report.Blocked? {
      var k :| 0 <= k < |log| && log[k].StateRead? && Shows(c, log[k].s, ending.report, ending.reason);
      assert more[k] == log[k];
    }
  }

  lemma GlanceIsWitness(c: Config, log: seq<Event>, s: State, plain: Glance)
    requires log != [] && log[|log| - 1] == StateRead(s) && GlanceAt(c, s, plain).Reports?
    ensures Honest(c, log, Reported(GlanceAt(c, s, plain).report, GlanceAt(c, s, plain).reason))
  {
    if c.expected.Some? {
      assert Shows(c, s, GlanceAt(c, s, plain).report, GlanceAt(c, s, plain).reason);
    }
    hide GlanceAt;
    hide Shows;
    assert log[|log| - 1].StateRead?;
  }

  lemma EmptyLogOk(c: Config, nextSend: Time)
    requires ValidConfig(c)
    ensures LogOk(c, []) && Accurate([], Counts(0, 0, 0, 0), []) && Paced(c, [], nextSend)
    ensures Tally([]) == Counts(0, 0, 0, 0)
  {
  }

  /** What a read before an automatic submission answers. */
  function AnswerOf(c: Config, reading: Reading): Flow
    requires c.expected.Some?
  {
    if !reading.Got? then Stop(Raised)
    else
      var glance := GlanceAt(c, reading.s, Rejects);
      if glance.Rejects? then Stop(Raised)
      else if glance.Reports? || !InPhase(reading.s, Ramp) then Again
      else if ExactRamp(c, reading.s) then Go else Stop(Raised)
  }

  /** An automatic run is always a policy test. */
  lemma OnlyPolicyTests(c: Config, s: State)
    requires c.expected.Some? && !c.mode.PolicyTest?
    ensures GlanceAt(c, s, Rejects).Rejects?
  {
  }

  /** When a read lets an automatic submission pass, starts the turn again, or ends the run. */
  lemma AnswerExactly(c: Config, s: State)
    requires c.expected.Some?
    ensures var v, e := Observers.Observe(Observers.Config(c.mode.PolicyTest?, c.version, c.expected.value), s),
                        c.expected.value;
            var ramps := s.active.Some? && s.active.value.phase == Ramp;
            && (AnswerOf(c, Got(s)).Go? <==> v.InProgress? && Ramps(e, s))
            && (AnswerOf(c, Got(s)).Again? <==> !v.Raised? && !(v.InProgress? && ramps))
            && (AnswerOf(c, Got(s)) == Stop(Raised) <==> v.Raised? || (v.InProgress? && ramps && !Ramps(e, s)))
  {
    hide ValidAuth;
    hide Observers.Judge;
    hide Observers.LatestStart;
    hide Observers.ScanRows;
  }

  /** All checks of a submission, in their order. */
  function ChecksOf(c: Config, t: Turn): Flow {
    if c.mode.PolicyTest? && c.expected.Some? && !AnswerOf(c, t.first).Go? then AnswerOf(c, t.first)
    else if c.mode.PolicyTest? && !(t.backendsReady && t.payloadOk) then Stop(Raised)
    else if c.expected.Some? && !AnswerOf(c, t.second).Go? then AnswerOf(c, t.second)
    else if c.expected.Some? && t.cancelledLate then Stop(Reported(Report.Blocked, "cancelled"))
    else Go
  }

  class Run {
    const config: Config
    var counts: Counts
    var futures: seq<nat>
    var nextSend: Time
    var nextPoll: Time
    var failures: nat
    var state: State
    var stages: set<nat>
    var log: seq<Event>

    ghost predicate Valid()
      reads this
    {
      && ValidConfig(config) && LogOk(config, log) && Accurate(log, counts, futures) && Paced(config, log, nextSend)
      && LastRead(log) == Some(state)
    }

    constructor (c: Config, started: Time, s: State)
      requires ValidConfig(c)
      ensures Valid() && config == c && log == [StateRead(s)] && futures == [] && state == s && nextPoll == started
    {
      config := c;
      counts, futures, nextSend, nextPoll, failures := Counts(0, 0, 0, 0), [], started, started, 0;
      state, stages, log := s, {}, [StateRead(s)];
      new;
      assert [StateRead(s)] == [] + [StateRead(s)];
      EmptyLogOk(c, started);
      hide LogOk;
      hide Accurate;
      hide Paced;
      ReadKeepsLog(c, [], Counts(0, 0, 0, 0), [], started, s);
      NewestStays([], StateRead(s));
    }

    method Note(s: State)
      requires Valid()
      modifies this`state, this`log
      ensures Valid() && state == s && log == old(log) + [StateRead(s)]
    {
      hide LogOk;
      hide Accurate;
      hide Paced;
      ReadKeepsLog(config, log, counts, futures, nextSend, s);
      NewestStays(log, StateRead(s));
      hide LastRead;
      state, log := s, log + [StateRead(s)];
    }

    /** Takes future i out of flight and counts its answer. */
    method Collect(i: nat, row: Row)
      requires Valid() && i < |futures|
      modifies this`counts, this`futures, this`log
      ensures Valid() && futures == old(futures[..i] + futures[i + 1..])
      ensures log == old(log) + [Collected(old(futures[i]), row)]
    {
      hide LogOk;
      hide Accurate;
      hide Paced;
      hide Count;
      CollectKeepsLog(config, log, counts, futures, nextSend, i, row);
      NewestStays(log, Collected(futures[i], row));
      hide LastRead;
      counts, log := Count(counts, row), log + [Collected(futures[i], row)];
      futures := futures[..i] + futures[i + 1..];
    }

    /** One pass over a copy of the futures, collecting those that are done. */
    method CollectDone(done: map<nat, Row>)
      requires Valid()
      modifies this`counts, this`futures, this`log
      ensures Valid() && forall id :: id in futures ==> id in old(futures) && id !in done
    {
      hide LogOk;
      hide Accurate;
      hide Paced;
      var kept := 0;
      while kept < |futures|
        invariant Valid() && kept <= |futures|
        invariant forall id :: id in futures ==> id in old(futures)
        invariant forall k :: 0 <= k < kept ==> futures[k] !in done
        decreases |futures| - kept
      {
        if futures[kept] in done {
          Collect(kept, done[futures[kept]]);
        } else {
          kept := kept + 1;
        }
      }
    }

    method CollectAll(late: nat -> Row)
      requires Valid()
      modifies this`counts, this`futures, this`log
      ensures Valid() && futures == [] && old(log) <= log
      ensures old(futures) == [] ==> counts == old(counts)
    {
      hide LogOk;
      hide Accurate;
      hide Paced;
      while futures != []
        invariant Valid() && old(log) <= log
        invariant old(futures) == [] ==> futures == [] && counts == old(counts)
        decreases |futures|
      {
        Collect(0, late(futures[0]));
      }
    }

    method Submit(from: Time, to: Time)
      requires Valid() && config.rps > 0 && nextSend <= from <= to
      requires |futures| < config.concurrency && counts.requests + |futures| < config.requests
      requires PermittedAt(config, log)
      modifies this`futures, this`log, this`nextSend
      ensures Valid() && log == old(log) + [Submitted(old(counts.requests) + |old(futures)|, from, to)]
      ensures futures == old(futures) + [old(counts.requests) + |old(futures)|]
      ensures nextSend == to + 1.0 / config.rps as real
    {
      hide PermittedAt;
      hide LastRead;
      hide LogOk;
      hide Accurate;
      hide Paced;
      hide SubmittedIds;
      SubmitKeepsLog(config, log, counts, futures, nextSend, from, to);
      NewestStays(log, Submitted(|SubmittedIds(log)|, from, to));
      var id := counts.requests + |futures|;
      futures, log := futures + [id], log + [Submitted(id, from, to)];
      nextSend := to + 1.0 / config.rps as real;
    }

    /** Reads the record; the flow says whether the loop goes on. */
    method Poll(t: Turn) returns (flow: Flow)
      requires Valid()
      modifies this`nextPoll, this`failures, this`state, this`stages, this`log
      ensures Valid() && (flow.Stop? ==> Honest(config, log, flow.ending))
      ensures config.mode.Baseline? && flow.Stop? && flow.ending.Reported? ==> flow.ending.report.Blocked?
      ensures t.poll.Broken? ==> flow == Stop(Raised)
      ensures t.poll.Unavailable? ==>
                && failures == old(failures) + 1 && nextPoll == old(nextPoll) && log == old(log)
                && flow == if old(failures) >= config.retries
                           then Stop(Reported(Report.Blocked, "kubernetes_unavailable"))
                           else if t.elapsed > config.duration as real then Stop(Raised) else Again
      ensures !t.poll.Got? ==> state == old(state)
      ensures t.poll.Got? ==>
                && failures == 0 && state == t.poll.s && log == old(log) + [StateRead(state)]
                && if config.mode.Baseline? then
                     && flow == (if !IsBaseline(config, state) || t.stable.Throws? then Stop(Raised)
                                 else if t.stable.Differs? then Again else Go)
                     && nextPoll == (if flow.Again? then t.again else t.polledAt + 1.0)
                   else
                     var glance := GlanceAt(config, state, t.plain);
                     && flow == (if glance.Rejects? then Stop(Raised) else if glance.Continues? then Go
                                 else Stop(Reported(glance.report, glance.reason)))
                     && nextPoll == t.polledAt + 1.0
    {
      hide LogOk;
      hide Accurate;
      hide Paced;
      hide GlanceAt;
      if t.poll.Broken? {
        return Stop(Raised);
      }
      if t.poll.Unavailable? {
        failures := failures + 1;
        if failures > config.retries {
          return Stop(Reported(Report.Blocked, "kubernetes_unavailable"));
        }
        return if t.elapsed > config.duration as real then Stop(Raised) else Again;
      }
      Note(t.poll.s);
      failures := 0;
      nextPoll := t.polledAt + 1.0;
      if config.mode.Baseline? {
        if !IsBaseline(config, state) {
          return Stop(Raised);
        }
        if t.stable.Throws? {
          return Stop(Raised);
        }
        if t.stable.Differs? {
          nextPoll := t.again;
          return Again;
        }
        return Go;
      }
      var glance := GlanceAt(config, state, t.plain);
      if glance.Rejects? {
        return Stop(Raised);
      }
      stages := stages + set w | w in glance.seen;
      if glance.Continues? {
        return Go;
      }
      GlanceIsWitness(config, log, state, t.plain);
      return Stop(Reported(glance.report, glance.reason));
    }

    /** A read that has to permit the next submission of an automatic run. */
    method AskPermission(reading: Reading, again: Time) returns (flow: Flow)
      requires Valid() && config.expected.Some?
      modifies this`nextPoll, this`state, this`log
      ensures Valid() && nextSend == old(nextSend) && futures == old(futures) && counts == old(counts)
      ensures flow == AnswerOf(config, reading)
      ensures log == old(log) + (if reading.Got? then [StateRead(reading.s)] else [])
      ensures state == (if reading.Got? then reading.s else old(state))
      ensures nextPoll == (if flow.Again? then again else old(nextPoll))
    {
      hide ExactRamp;
      hide GlanceAt;
      hide LogOk;
      hide Accurate;
      hide Paced;
      if !reading.Got? {
        return Stop(Raised);
      }
      Note(reading.s);
      var glance := GlanceAt(config, state, Rejects);
      if glance.Rejects? {
        return Stop(Raised);
      }
      if glance.Reports? || !InPhase(state, Ramp) {
        nextPoll := again;
        return Again;
      }
      return if ExactRamp(config, state) then Go else Stop(Raised);
    }

    /** All checks before a submission, and the submission itself. */
    method TrySend(t: Turn) returns (flow: Flow)
      requires Valid() && t.sendAt <= t.sentAt && (config.mode.Baseline? ==> IsBaseline(config, state))
      modifies this
      ensures Valid() && (flow.Stop? ==> Honest(config, log, flow.ending))
      ensures flow.Stop? && flow.ending.Reported? ==> flow.ending.report.Blocked?
      ensures config.mode.Baseline? && !flow.Stop? ==> IsBaseline(config, state)
      ensures var sends := && WantsTraffic(config, old(state)) && t.sendAt >= old(nextSend)
                           && |old(futures)| < config.concurrency
                           && old(counts.requests) + |old(futures)| < config.requests;
              if !sends then flow.Go? && log == old(log) && futures == old(futures)
              else
                var id := old(counts.requests) + |old(futures)|;
                && flow == ChecksOf(config, t)
                && futures == old(futures) + (if flow.Go? then [id] else [])
                && (flow.Go? ==>
                      && log != [] && log[|log| - 1] == Submitted(id, t.sendAt, t.sentAt)
                      && nextSend == t.sentAt + 1.0 / config.rps as real)
      ensures counts == old(counts) && (config.expected.None? ==> state == old(state))
    {
      hide ExactRamp;
      hide LogOk;
      hide Accurate;
      hide Paced;
      if !WantsTraffic(config, state) || t.sendAt < nextSend || |futures| >= config.concurrency
         || counts.requests + |futures| >= config.requests {
        return Go;
      }
      if config.mode.PolicyTest? {
        if config.expected.Some? {
          flow := AskPermission(t.first, t.again);
          if !flow.Go? {
            return;
          }
        }
        if !t.backendsReady || !t.payloadOk {
          return Stop(Raised);
        }
      }
      if config.expected.Some? {
        flow := AskPermission(t.second, t.again);
        if !flow.Go? {
          return;
        }
        if t.cancelledLate {
          return Stop(Reported(Report.Blocked, "cancelled"));
        }
      }
      ChecksPermit(config, log, state);
      Submit(t.sendAt, t.sentAt);
      return Go;
    }

    /** One turn: a run that is not automatic never goes on with its budget spent and nothing in flight. */
    method TakeTurn(t: Turn) returns (flow: Flow)
      requires Valid() && t.sendAt <= t.sentAt && (config.mode.Baseline? ==> IsBaseline(config, state))
      modifies this
      ensures Valid() && (flow.Stop? ==> Honest(config, log, flow.ending))
      ensures config.mode.Baseline? && !flow.Stop? ==> IsBaseline(config, state)
      ensures config.mode.Baseline? && flow.Stop? && flow.ending.Reported? && !flow.ending.report.Blocked? ==>
                flow.ending.report.Passed? && config.expected.None? && futures == []
                && counts.requests >= config.requests
      ensures t.cancelled ==> flow == Stop(Reported(Report.Blocked, "cancelled")) && log == old(log)
      ensures flow.Go? && config.expected.None? ==>
                && (futures != [] || counts.requests < config.requests)
                && state == if t.pollAt >= old(nextPoll) && t.poll.Got? then t.poll.s else old(state)
      ensures flow.Go? && t.pollAt >= old(nextPoll) ==> t.poll.Got?
    {
      hide LogOk;
      hide Accurate;
      hide Paced;
      hide ChecksOf;
      hide GlanceAt;
      if t.cancelled {
        return Stop(Reported(Report.Blocked, "cancelled"));
      }
      CollectDone(t.done);
      if t.pollAt >= nextPoll {
        flow := Poll(t);
        if !flow.Go? {
          return;
        }
      }
      if counts.requests + |futures| >= config.requests && futures == [] && config.expected.None? {
        return Stop(if config.mode.Baseline? then Reported(Passed, "baseline_smoke")
                    else Reported(Report.Blocked, "request_budget_exhausted"));
      }
      flow := TrySend(t);
    }
  }

  /** Every submitted request was collected exactly once, and the counters are the tally of the answers. */
  ghost predicate AccountsFor(counts: Counts, log: seq<Event>) {
    && multiset(CollectedIds(log)) == multiset(Numbers(|SubmittedIds(log)|))
    && SubmittedIds(log) == Numbers(|SubmittedIds(log)|)
    && counts == Tally(log) && counts.requests == |SubmittedIds(log)|
  }

  lemma ErrorsAreBad(counts: Counts, log: seq<Event>)
    requires CountsAnswers(counts, log)
    ensures counts.errors > 0 <==> BadAnswers(log) != {}
  {
    hide Answered;
    hide BadAnswers;
    hide AnswersOf;
  }

  /** A finished run that is not automatic fails on any bad answer; a baseline run passes and fails on nothing else. */
  ghost predicate Judges(c: Config, ending: Ending, counts: Counts, log: seq<Event>) {
    ending.Reported? && c.expected.None? ==>
      && (BadAnswers(log) != {} ==> ending == Reported(Failed, "http_or_track_errors"))
      && (c.mode.Baseline? && ending.report.Failed? ==> BadAnswers(log) != {})
      && (c.mode.Baseline? && ending.report.Passed? ==> BadAnswers(log) == {} && counts.requests == c.requests)
  }

  lemma VerdictJudges(c: Config, ending: Ending, counts: Counts, log: seq<Event>)
    requires CountsAnswers(counts, log) && ending.Reported?
    requires c.mode.Baseline? && c.expected.None? && !ending.report.Blocked? ==>
               ending.report.Passed? && counts.requests == c.requests
    ensures var told := if counts.errors > 0 && c.expected.None? then Reported(Failed, "http_or_track_errors")
                        else ending;
            Judges(c, told, counts, log)
  {
    ErrorsAreBad(counts, log);
    hide CountsAnswers;
    hide BadAnswers;
  }

  lemma BudgetKept(c: Config, log: seq<Event>, counts: Counts, futures: seq<nat>)
    requires LogOk(c, log) && Accurate(log, counts, futures)
    ensures counts.requests + |futures| <= c.requests
  {
    InFlight(log, counts, futures);
    LimitsNow(c, log);
    hide WithinLimits;
  }

  /**
   * The loop, with one turn for every time its clock test holds. A run
   * that is not automatic is admitted by its first read; `admitted` stands for
   * its other checks before the loop.
   */
  method Execute(config: Config, started: Time, first: Reading, admitted: bool, turns: seq<Turn>, late: nat -> Row)
    returns (ending: Ending, counts: Counts, log: seq<Event>)
    requires forall i :: 0 <= i < |turns| ==> turns[i].sendAt <= turns[i].sentAt
    ensures !ending.Refused? <==>
              && config.rps <= 20 && 1 <= config.concurrency <= 8 && 1 <= config.requests <= 2000
              && 1 <= config.duration <= 900 && config.retries <= 3
              && (config.rps == 0 <==> config.mode.Observe?) && (config.mode.PolicyTest? ==> config.synthetic)
    ensures !ending.Refused? ==> LogOk(config, log) && counts == Tally(log)
    ensures ending.Reported? ==> AccountsFor(counts, log) && Honest(config, log, ending)
    ensures !ending.Refused? ==> CountsAnswers(counts, log)
    ensures Judges(config, ending, counts, log)
    ensures !ending.Refused? && config.expected.None? && first.Got? && !(admitted && Admits(config, first.s)) ==>
              ending.Raised? && log == [StateRead(first.s)]
  {
    hide LogOk;
    hide Paced;
    hide GlanceAt;
    hide Tally;
    hide SubmittedIds;
    hide CollectedIds;
    hide CountsAnswers;
    hide BadAnswers;
    if !ValidConfig(config) {
      return Refused, Counts(0, 0, 0, 0), [];
    }
    TallyCounts([]);
    if !first.Got? {
      EmptyLogOk(config, started);
      return Raised, Counts(0, 0, 0, 0), [];
    }
    var run := new Run(config, started, first.s);
    TallyCounts(run.log);
    if config.expected.Some? {
      if !config.mode.PolicyTest? {
        OnlyPolicyTests(config, run.state);
      }
      var glance := GlanceAt(config, run.state, Rejects);
      if !glance.Continues? {
        InFlight(run.log, run.counts, run.futures);
        if glance.Reports? {
          GlanceIsWitness(config, run.log, run.state, Rejects);
        }
        return if glance.Rejects? then Raised else Reported(glance.report, glance.reason), run.counts, run.log;
      }
      run.stages := set w | w in glance.seen;
    } else if !Admits(config, run.state) || !admitted {
      return Raised, run.counts, run.log;
    }
    ending := Reported(Report.Blocked, "timeout");
    for i := 0 to |turns|
      invariant run.Valid() && run.config == config && fresh(run)
      invariant config.mode.Baseline? ==> IsBaseline(config, run.state)
      invariant ending == Reported(Report.Blocked, "timeout")
    {
      var flow := run.TakeTurn(turns[i]);
      if flow.Stop? {
        ending := flow.ending;
        break;
      }
    }
    TallyCounts(run.log);
    if !ending.Reported? {
      return Raised, run.counts, run.log;
    }
    ghost var before := run.log;
    run.CollectAll(late);
    WitnessStays(config, before, run.log, ending);
    InFlight(run.log, run.counts, run.futures);
    TallyCounts(run.log);
    BudgetKept(config, run.log, run.counts, run.futures);
    VerdictJudges(config, ending, run.counts, run.log);
    hide Judges;
    if run.counts.errors > 0 && config.expected.None? {
      ending := Reported(Failed, "http_or_track_errors");
    }
    return ending, run.counts, run.log;
  }

  // ----- permission and the release ---------------------------------------------------------------

  /**
   * On the records of any run of the control plane, the permission check never
   * rejects what the observer lets through: a release that is observed to be
   * in progress and is ramping is exactly the permitted one.
   */
  lemma ObservedRampIsPermitted(s: State, c: Config)
    requires PhaseOk(s) && c.expected.Some? && InPhase(s, Ramp)
    requires GlanceAt(c, s, Rejects).Continues?
    ensures ExactRamp(c, s)
  {
  }

  /** Errors are the answers that are not successful or do not come from a known lane. */
  lemma {:induction false} TallyMeans(log: seq<Event>)
    ensures var t := Tally(log);
            && t.requests == |CollectedIds(log)|
            && t.stable + t.canary <= t.requests && t.errors <= t.requests
            && (t.errors == 0 ==> t.stable + t.canary == t.requests)
  {
    if log != [] {
      TallyMeans(log[..|log| - 1]);
    }
  }
}
