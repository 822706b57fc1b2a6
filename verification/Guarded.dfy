/**
 * The guarded updates of a controller: the retry loop of module Store around a
 * closure that checks the lease again in every turn and reads the clock afresh.
 * Together with whatever the other actors do meanwhile, one call of it is one
 * step of module Cluster.
 */
module Guarded {
  import opened ReleaseState
  import opened Mutators
  import opened Authorization
  import opened Lifecycle
  import opened Machine
  import opened Conservation
  import opened Record
  import opened Store
  import opened Decisions
  import C = Cluster

  /** The closure and the guard's clock reading in one turn of the loop. */
  datatype Call = Call(op: Op, now: Time, turn: Turn)

  // ----- the loop as a function -----------------------------------------------------------

  function ChangeSpec(w: World, o: Owner, calls: seq<Call>): Updated
    decreases calls
  {
    if calls == [] then Updated(w, OutOfRetries)
    else if !Validated(w.s) then Updated(w, Rejected)
    else if !C.Guard(w.s, o, calls[0].now) then Updated(w, Failed(BusyError))
    else
      var t := calls[0].turn;
      match Mutate(w.s, calls[0].op)
      case Raise(e) => Updated(w, Failed(e))
      case Commit(next, _) =>
        if !Validated(next) then Updated(w, Rejected)
        else
          var later := Steps(w, t.others);
          if t.fault.RequestLost? then Updated(later, Errored)
          else if Commits(w, t.others) == 0 then
            Updated(Step(w, calls[0].op), if t.fault.ResponseLost? then Errored else Done(Returned(w.s, calls[0].op)))
          else if t.fault.ResponseLost? then Updated(later, Errored)
          else ChangeSpec(later, o, calls[1..])
  }

  // ----- the loop as it is written --------------------------------------------------------

  method Change(backend: Backend, o: Owner, calls: seq<Call>) returns (answer: Answer)
    requires backend.Valid()
    modifies backend
    ensures backend.Valid()
    ensures Updated(backend.world, answer) == ChangeSpec(old(backend.world), o, calls)
  {
    hide Mutate;
    hide Step;
    hide Validated;
    hide C.Guard;
    var i := 0;
    assert calls[0..] == calls;
    while i < |calls|
      invariant i <= |calls| && backend.Valid()
      invariant ChangeSpec(backend.world, o, calls[i..]) == ChangeSpec(old(backend.world), o, calls)
    {
      assert calls[i..][1..] == calls[i + 1..] && calls[i..][0] == calls[i];
      var op, turn := calls[i].op, calls[i].turn;
      var expected, original := backend.revision, backend.state;
      if !Validated(original) {
        return Rejected;
      }
      if !C.Guard(original, o, calls[i].now) {
        return Failed(BusyError);
      }
      var draft := new Draft(original);
      var error := draft.Run(op);
      if error.Some? {
        return Failed(error.value);
      }
      var next := draft.View();
      if !Validated(next) {
        return Rejected;
      }
      ghost var read := backend.world;
      backend.Interfere(turn.others);
      NoCommitsNoChange(read, turn.others);
      var reply := backend.Write(expected, next, turn.fault, op);
      if reply.Written? {
        return Done(Returned(original, op));
      }
      if reply.Unknown? {
        return Errored;
      }
      i := i + 1;
    }
    return OutOfRetries;
  }

  // ----- what the lease check gives ---------------------------------------------------------

  /** What the others commit in the first k turns. */
  function OthersBefore(calls: seq<Call>, k: nat): seq<Op>
    requires k <= |calls|
  {
    if k == 0 then [] else calls[0].turn.others + OthersBefore(calls[1..], k - 1)
  }

  predicate Leases(s: State, o: Owner, reading: Time) {
    s.lease.Some? && s.lease.value.owner == o && s.lease.value.until > reading + 10.0
  }

  /** The record that turn k of the loop reads. */
  function ReadIn(w: World, calls: seq<Call>, k: nat): World
    requires k <= |calls|
  {
    Steps(w, OthersBefore(calls, k))
  }

  lemma ReadAfter(w: World, calls: seq<Call>, k: nat)
    requires 0 < k <= |calls|
    ensures ReadIn(w, calls, k) == ReadIn(Steps(w, calls[0].turn.others), calls[1..], k - 1)
  {
    StepsConcat(w, calls[0].turn.others, OthersBefore(calls[1..], k - 1));
  }

  predicate Retried(m: World, o: Owner, c: Call) {
    Leases(m.s, o, c.now) && Conflicts(m, c.op, c.turn)
  }

  ghost predicate ConcludesGuarded(m: World, o: Owner, c: Call, u: Updated) {
    if Validated(m.s) && !Leases(m.s, o, c.now) then u == Updated(m, Failed(BusyError))
    else Concludes(m, c.op, c.turn, u)
  }

  /**
   * As in module Store, except that the lease is tested in every turn, at that
   * turn's reading: all turns before turn k had the lease and met a conflict,
   * and turn k, with its own closure, gives the answer.
   */
  lemma {:induction false} ChangeExactly(w: World, o: Owner, calls: seq<Call>) returns (k: nat)
    requires calls != []
    ensures k < |calls| && ConcludesGuarded(ReadIn(w, calls, k), o, calls[k], ChangeSpec(w, o, calls))
    ensures forall j :: 0 <= j < k ==> Retried(ReadIn(w, calls, j), o, calls[j])
    ensures k + 1 < |calls| ==> !Retried(ReadIn(w, calls, k), o, calls[k])
    decreases calls
  {
    hide Validated;
    hide Mutate;
    hide Remember;
    k := 0;
    assert ReadIn(w, calls, 0) == w;
    if Retried(w, o, calls[0]) {
      var later := Steps(w, calls[0].turn.others);
      assert ChangeSpec(w, o, calls) == ChangeSpec(later, o, calls[1..]);
      if |calls| > 1 {
        var n := ChangeExactly(later, o, calls[1..]);
        k := n + 1;
        hide ChangeSpec;
        hide ReadIn;
        hide Retried;
        hide ConcludesGuarded;
        ReadAfter(w, calls, k);
        forall j | 0 <= j < k
          ensures Retried(ReadIn(w, calls, j), o, calls[j])
        {
          if j > 0 {
            ReadAfter(w, calls, j);
            assert calls[1..][j - 1] == calls[j];
          }
        }
      }
    }
  }

  /**
   * On the record that the last turn read, the answer is Busy exactly without
   * ten seconds of lease left at that turn's reading; a closure that was
   * committed was committed there, with the lease.
   */
  lemma CommitNeedsLease(w: World, o: Owner, calls: seq<Call>) returns (k: nat, committed: bool)
    requires calls != [] && forall i :: 0 <= i < |calls| ==> ByController(calls[i].op)
    ensures k < |calls|
    ensures var u, m := ChangeSpec(w, o, calls), ReadIn(w, calls, k);
            && (u.answer == Failed(BusyError) <==> Validated(m.s) && !Leases(m.s, o, calls[k].now))
            && (committed ==> Leases(m.s, o, calls[k].now) && u.world == Step(m, calls[k].op))
            && (!committed ==> u.world == m || u.world == Steps(m, calls[k].turn.others))
            && (u.answer.Done? ==> committed)
  {
    hide Validated;
    hide Mutate;
    hide Remember;
    k := ChangeExactly(w, o, calls);
    hide ChangeSpec;
    var m := ReadIn(w, calls, k);
    hide ReadIn;
    hide Retried;
    hide Steps;
    hide Step;
    NotBusy(m.s, calls[k].op);
    committed := Validated(m.s) && Leases(m.s, o, calls[k].now) && Mutate(m.s, calls[k].op).Commit?
                 && Validated(Mutate(m.s, calls[k].op).next) && !calls[k].turn.fault.RequestLost?
                 && Commits(m, calls[k].turn.others) == 0;
  }

  /** Only ingestion finds the record busy. */
  lemma NotBusy(s: State, op: Op)
    requires ByController(op)
    ensures Mutate(s, op) != Raise(BusyError)
  {
  }

  // ----- what other actors do meanwhile ---------------------------------------------------

  predicate Possible(p: Policy, y: C.Sys, ls: seq<C.Label>)
    decreases ls
  {
    ls == [] || (C.Can(p, y, ls[0]) && Possible(p, C.Do(p, y, ls[0]), ls[1..]))
  }

  function After(p: Policy, y: C.Sys, ls: seq<C.Label>): C.Sys
    requires Possible(p, y, ls)
    decreases ls
  {
    if ls == [] then y else After(p, C.Do(p, y, ls[0]), ls[1..])
  }

  lemma {:induction false} AfterConcat(p: Policy, y: C.Sys, a: seq<C.Label>, b: seq<C.Label>)
    requires Possible(p, y, a) && Possible(p, After(p, y, a), b)
    ensures Possible(p, y, a + b) && After(p, y, a + b) == After(p, After(p, y, a), b)
    decreases a
  {
    hide C.Can;
    hide C.Do;
    if a == [] {
      assert a + b == b;
    } else {
      assert (a + b)[1..] == a[1..] + b;
      AfterConcat(p, C.Do(p, y, a[0]), a[1..], b);
    }
  }

  /** The closure that a step hands to the record, if any. */
  function Handed(p: Policy, y: C.Sys, l: C.Label): seq<Op>
    requires C.Can(p, y, l)
  {
    match l
    case Take(o, check, until, fate) =>
      if C.TakeStep(y, o, check, until, fate).w == y.w then [] else [Acquire(o, check, until)]
    case Store(o, ans, _, fate) =>
      if fate.Acknowledged? || fate.Unseen? then [C.DecisionOf(p, C.CtlOf(y, o), ans).op] else []
    case Outside(op) => [op]
    case _ => []
  }

  function AllHanded(p: Policy, y: C.Sys, ls: seq<C.Label>): seq<Op>
    requires Possible(p, y, ls)
    decreases ls
  {
    if ls == [] then [] else Handed(p, y, ls[0]) + AllHanded(p, C.Do(p, y, ls[0]), ls[1..])
  }

  lemma HandedMakes(p: Policy, y: C.Sys, l: C.Label)
    requires C.Can(p, y, l)
    ensures Steps(y.w, Handed(p, y, l)) == C.Do(p, y, l).w
  {
    hide Mutate;
    hide Remember;
    hide Decide;
    hide C.AfterStore;
    var ops := Handed(p, y, l);
    if ops != [] {
      assert Steps(y.w, ops) == Steps(Step(y.w, ops[0]), []) by { assert ops[1..] == []; }
    }
  }

  lemma {:induction false} AllHandedMake(p: Policy, y: C.Sys, ls: seq<C.Label>)
    requires Possible(p, y, ls)
    ensures Steps(y.w, AllHanded(p, y, ls)) == After(p, y, ls).w
    decreases ls
  {
    hide C.Can;
    hide C.Do;
    hide Handed;
    hide Step;
    if ls != [] {
      var z := C.Do(p, y, ls[0]);
      HandedMakes(p, y, ls[0]);
      AllHandedMake(p, z, ls[1..]);
      StepsConcat(y.w, Handed(p, y, ls[0]), AllHanded(p, z, ls[1..]));
    }
  }

  /** Steps of other actors. */
  predicate Foreign(o: Owner, l: C.Label) {
    l.Outside? || l.Fetch? || l.Install? || l.o != o
  }

  predicate AllForeign(o: Owner, ls: seq<C.Label>) {
    forall k :: 0 <= k < |ls| ==> Foreign(o, ls[k])
  }

  lemma {:induction false} ForeignLeaves(p: Policy, y: C.Sys, ls: seq<C.Label>, o: Owner)
    requires Possible(p, y, ls) && AllForeign(o, ls)
    ensures C.CtlOf(After(p, y, ls), o) == C.CtlOf(y, o)
    decreases ls
  {
    hide C.Can;
    hide C.Do;
    if ls != [] {
      OneForeignLeaves(p, y, ls[0], o);
      ForeignLeaves(p, C.Do(p, y, ls[0]), ls[1..], o);
    }
  }

  lemma OneForeignLeaves(p: Policy, y: C.Sys, l: C.Label, o: Owner)
    requires C.Can(p, y, l) && Foreign(o, l)
    ensures C.CtlOf(C.Do(p, y, l), o) == C.CtlOf(y, o)
  {
    hide Step;
    hide Mutate;
    hide Decide;
    hide C.AfterStore;
  }

  lemma {:induction false} AfterKeepsSysInv(p: Policy, y: C.Sys, ls: seq<C.Label>)
    requires C.SysInv(y) && Possible(p, y, ls)
    ensures C.SysInv(After(p, y, ls))
    decreases ls
  {
    hide C.Can;
    hide C.Do;
    hide C.SysInv;
    if ls != [] {
      C.DoKeepsSysInv(p, y, ls[0]);
      AfterKeepsSysInv(p, C.Do(p, y, ls[0]), ls[1..]);
    }
  }

  // ----- one step of the interleaved system -------------------------------------------------

  /**
   * One turn of the loop: the readings that its closure makes, the guard's
   * reading, what the others do before its write, and how the write fares.
   */
  datatype Attempt = Attempt(ans: Answers, now: Time, others: seq<C.Label>, fault: Fault)

  /** The others' steps are possible, one turn after the other, and in each turn the tick wants to write. */
  predicate Feasible(p: Policy, y: C.Sys, o: Owner, c: C.Ctl, attempts: seq<Attempt>)
    requires c.Working?
    decreases attempts
  {
    attempts == []
    || (var a := attempts[0];
        && C.DecisionOf(p, c, a.ans).Write? && AllForeign(o, a.others) && Possible(p, y, a.others)
        && Feasible(p, After(p, y, a.others), o, c, attempts[1..]))
  }

  function CallsOf(p: Policy, y: C.Sys, o: Owner, c: C.Ctl, attempts: seq<Attempt>): (calls: seq<Call>)
    requires c.Working? && Feasible(p, y, o, c, attempts)
    ensures |calls| == |attempts|
    decreases attempts
  {
    if attempts == [] then []
    else
      var a := attempts[0];
      [Call(C.DecisionOf(p, c, a.ans).op, a.now, Turn(AllHanded(p, y, a.others), a.fault))]
      + CallsOf(p, After(p, y, a.others), o, c, attempts[1..])
  }

  function AllOthersOf(attempts: seq<Attempt>): seq<C.Label> {
    if attempts == [] then [] else attempts[0].others + AllOthersOf(attempts[1..])
  }

  /** How the tick goes on, from the answer alone; `view` is where it stands after an error. */
  function Continuation(c: C.Ctl, op: Op, u: Updated, view: View, exn: Exn): C.Ctl
    requires c.Working?
  {
    match u.answer
    case Done(_) => if op.ForceZero? then c.(view := ViewOf(u.world.s), pos := Zeroed) else C.Idle
    case Failed(e) => if e.BusyError? then C.Idle else C.Fail(c, c.view, C.ExnOf(e))
    case Rejected => C.Fail(c, c.view, Invalid)
    case OutOfRetries => C.Idle
    case Errored => C.Fail(c, view, exn)
  }

  /**
   * Where the system stands after the step l is what the loop computed: the
   * record, the history and the place in the tick. Without the lease the tick
   * just ends; otherwise l is the guarded write of the call with these readings.
   */
  ghost predicate Matches(z: C.Sys, o: Owner, c: C.Ctl, op: Op, a: Attempt, u: Updated, exn: Exn, l: C.Label)
    requires c.Working?
  {
    && z.w == u.world && !u.answer.Rejected?
    && if l.Store? then
         && l.o == o && l.ans == a.ans && l.now == a.now
         && C.CtlOf(z, o) == Continuation(c, op, u, if l.fate.Unseen? then ViewOf(z.w.s) else c.view, exn)
         && (u.answer.Done? ==> l.fate.Acknowledged?)
         && (u.answer.Errored? ==> l.fate in {C.Unseen(exn), C.Lost(exn)})
       else
         l == C.Crash(o) && u.answer == Failed(BusyError) && C.CtlOf(z, o).Idle?
  }

  /** The whole call is the step l of its turn k, between the others' steps before and after it. */
  ghost predicate IsStep(p: Policy, y: C.Sys, o: Owner, c: C.Ctl, attempts: seq<Attempt>, exn: Exn,
                         before: seq<C.Label>, l: C.Label, after: seq<C.Label>, k: nat)
    requires c.Working? && Feasible(p, y, o, c, attempts)
  {
    var calls := CallsOf(p, y, o, c, attempts);
    && k < |attempts| && before + after <= AllOthersOf(attempts)
    && Possible(p, y, before + [l] + after)
    && Matches(After(p, y, before + [l] + after), o, c, calls[k].op, attempts[k], ChangeSpec(y.w, o, calls), exn, l)
  }

  /** A step between others' steps, from its three parts. */
  lemma Assemble(p: Policy, y: C.Sys, before: seq<C.Label>, l: C.Label, after: seq<C.Label>, o: Owner)
    requires Possible(p, y, before) && C.Can(p, After(p, y, before), l)
    requires Possible(p, C.Do(p, After(p, y, before), l), after) && AllForeign(o, after)
    ensures Possible(p, y, before + [l] + after)
    ensures var v := C.Do(p, After(p, y, before), l);
            var z := After(p, y, before + [l] + after);
            z == After(p, v, after) && C.CtlOf(z, o) == C.CtlOf(v, o)
  {
    hide C.Can;
    hide C.Do;
    var m := After(p, y, before);
    var v := C.Do(p, m, l);
    assert [l][1..] == [] && Possible(p, v, []) && After(p, v, []) == v;
    assert Possible(p, m, [l]) && After(p, m, [l]) == v;
    AfterConcat(p, y, before, [l]);
    AfterConcat(p, y, before + [l], after);
    ForeignLeaves(p, v, after, o);
  }

  /** With nothing before the step. */
  lemma AssembleFirst(p: Policy, y: C.Sys, l: C.Label, after: seq<C.Label>, o: Owner)
    requires C.Can(p, y, l) && Possible(p, C.Do(p, y, l), after) && AllForeign(o, after)
    ensures Possible(p, y, [] + [l] + after)
    ensures var v := C.Do(p, y, l);
            var z := After(p, y, [] + [l] + after);
            z == After(p, v, after) && C.CtlOf(z, o) == C.CtlOf(v, o)
  {
    hide C.Can;
    hide C.Do;
    assert Possible(p, y, []) && After(p, y, []) == y;
    Assemble(p, y, [], l, after, o);
  }

  lemma NothingAfter(p: Policy, y: C.Sys)
    ensures Possible(p, y, []) && After(p, y, []) == y
  {
  }

  /** A write that does not arrive leaves the others' steps as possible as they were. */
  lemma {:induction false} MissedWriteKeeps(p: Policy, y: C.Sys, v: C.Sys, ls: seq<C.Label>, o: Owner)
    requires Possible(p, y, ls) && AllForeign(o, ls)
    requires v == y.(ctl := v.ctl) && forall q :: q != o ==> C.CtlOf(v, q) == C.CtlOf(y, q)
    ensures Possible(p, v, ls) && After(p, v, ls).w == After(p, y, ls).w
    decreases ls
  {
    hide C.Can;
    hide C.Do;
    if ls != [] {
      OneMissedKeeps(p, y, v, ls[0], o);
      MissedWriteKeeps(p, C.Do(p, y, ls[0]), C.Do(p, v, ls[0]), ls[1..], o);
    }
  }

  lemma OneMissedKeeps(p: Policy, y: C.Sys, v: C.Sys, l: C.Label, o: Owner)
    requires C.Can(p, y, l) && Foreign(o, l)
    requires v == y.(ctl := v.ctl) && forall q :: q != o ==> C.CtlOf(v, q) == C.CtlOf(y, q)
    ensures C.Can(p, v, l)
    ensures var a, b := C.Do(p, y, l), C.Do(p, v, l);
            b == a.(ctl := b.ctl) && forall q :: q != o ==> C.CtlOf(b, q) == C.CtlOf(a, q)
  {
    hide Step;
    hide Mutate;
    hide Decide;
    hide C.AfterStore;
    hide C.Guard;
    hide Fits;
    var a, b := C.Do(p, y, l), C.Do(p, v, l);
    forall q | q != o
      ensures C.CtlOf(b, q) == C.CtlOf(a, q)
    {
      assert C.CtlOf(v, q) == C.CtlOf(y, q);
      if !l.Outside? && !l.Fetch? && !l.Install? {
        assert C.CtlOf(v, l.o) == C.CtlOf(y, l.o);
      }
    }
  }

  /** What the guard and the snapshot give: the write is never rejected by validation. */
  lemma GuardedIsValid(p: Policy, y: C.Sys, o: Owner, ans: Answers, now: Time)
    requires C.SysInv(y) && C.Can(p, y, C.Store(o, ans, now, C.Acknowledged))
    ensures var r := Mutate(y.w.s, C.DecisionOf(p, C.CtlOf(y, o), ans).op);
            r.Commit? ==> Validated(r.next)
  {
    hide C.SysInv;
    hide Decide;
    hide Validated;
    hide Mutate;
    hide Fits;
    var op := C.DecisionOf(p, C.CtlOf(y, o), ans).op;
    C.CommitsAreNeverStale(p, y, o, ans, now, C.Acknowledged);
    C.SysInvParts(y);
    hide Inv;
    StepKeepsInv(y.w, op);
    InvValidates(Step(y.w, op));
  }

  lemma SysValidates(y: C.Sys)
    requires C.SysInv(y)
    ensures Validated(y.w.s)
  {
    C.SysInvParts(y);
    hide C.SysInv;
    InvValidates(y.w);
  }

  // ----- the turns ------------------------------------------------------------------------

  lemma WriteSpec(w: World, o: Owner, calls: seq<Call>)
    requires calls != [] && Validated(w.s) && C.Guard(w.s, o, calls[0].now)
    requires Mutate(w.s, calls[0].op).Commit? && Validated(Mutate(w.s, calls[0].op).next)
    requires Commits(w, calls[0].turn.others) == 0 && !calls[0].turn.fault.RequestLost?
    ensures ChangeSpec(w, o, calls)
            == Updated(Step(w, calls[0].op),
                       if calls[0].turn.fault.ResponseLost? then Errored else Done(Returned(w.s, calls[0].op)))
  {
    hide Validated;
    hide Mutate;
    hide Remember;
    hide C.Guard;
  }

  /** The turn writes: the others commit nothing between its read and its write. */
  lemma WriteArrives(p: Policy, y: C.Sys, o: Owner, c: C.Ctl, attempts: seq<Attempt>, exn: Exn)
    returns (l: C.Label)
    requires C.SysInv(y) && c.Working? && C.CtlOf(y, o) == c && attempts != [] && Feasible(p, y, o, c, attempts)
    requires var a, op := attempts[0], C.DecisionOf(p, c, attempts[0].ans).op;
             && C.Guard(y.w.s, o, a.now) && Mutate(y.w.s, op).Commit? && !a.fault.RequestLost?
             && Commits(y.w, AllHanded(p, y, a.others)) == 0
    ensures IsStep(p, y, o, c, attempts, exn, attempts[0].others, l, [], 0)
  {
    hide Decide;
    hide Mutate;
    hide Remember;
    hide C.SysInv;
    hide Validated;
    var a := attempts[0];
    var op := C.DecisionOf(p, c, a.ans).op;
    var m := After(p, y, a.others);
    AllHandedMake(p, y, a.others);
    NoCommitsNoChange(y.w, AllHanded(p, y, a.others));
    ForeignLeaves(p, y, a.others, o);
    assert m.w == y.w && C.CtlOf(m, o) == c;
    l := C.Store(o, a.ans, a.now, if a.fault.ResponseLost? then C.Unseen(exn) else C.Acknowledged);
    SysValidates(y);
    GuardedIsValid(p, y, o, a.ans, a.now);
    hide Possible;
    hide After;
    hide AllHanded;
    assert C.Can(p, m, l);
    StoreMeans(p, m, o, a.ans, a.now, l.fate);
    hide C.Do;
    hide C.Can;
    NothingAfter(p, C.Do(p, m, l));
    Assemble(p, y, a.others, l, [], o);
    WriteSpec(y.w, o, CallsOf(p, y, o, c, attempts));
    hide ChangeSpec;
    hide Commits;
    hide C.Guard;
  }

  lemma StoreMeans(p: Policy, m: C.Sys, o: Owner, ans: Answers, now: Time, fate: C.Fate)
    requires C.Can(p, m, C.Store(o, ans, now, fate))
    ensures var c := C.CtlOf(m, o);
            var op := C.DecisionOf(p, c, ans).op;
            var v := C.Do(p, m, C.Store(o, ans, now, fate));
            && C.CtlOf(v, o) == C.AfterStore(c, op, Mutate(m.w.s, op), fate)
            && v.w == (if fate.Acknowledged? || fate.Unseen? then Step(m.w, op) else m.w)
            && (fate.Lost? || fate.Conflicted? ==> v == m.(ctl := v.ctl))
            && forall q :: q != o ==> C.CtlOf(v, q) == C.CtlOf(m, q)
  {
    hide Decide;
    hide Mutate;
    hide Step;
    hide C.AfterStore;
  }

  lemma MissSpec(w: World, o: Owner, calls: seq<Call>)
    requires calls != [] && Validated(w.s) && C.Guard(w.s, o, calls[0].now)
    requires Mutate(w.s, calls[0].op).Commit? && Validated(Mutate(w.s, calls[0].op).next)
    requires var t := calls[0].turn;
             t.fault.RequestLost? || (Commits(w, t.others) > 0 && (t.fault.ResponseLost? || |calls| == 1))
    ensures var t := calls[0].turn;
            ChangeSpec(w, o, calls) == Updated(Steps(w, t.others), if t.fault.Delivered? then OutOfRetries else Errored)
  {
    hide Validated;
    hide Mutate;
    hide C.Guard;
    hide Steps;
    hide Commits;
    assert |calls| == 1 ==> calls[1..] == [];
  }

  /** The turn's write does not arrive, or meets a changed record in the last turn. */
  lemma WriteMisses(p: Policy, y: C.Sys, o: Owner, c: C.Ctl, attempts: seq<Attempt>, exn: Exn)
    returns (l: C.Label)
    requires C.SysInv(y) && c.Working? && C.CtlOf(y, o) == c && attempts != [] && Feasible(p, y, o, c, attempts)
    requires var a, op := attempts[0], C.DecisionOf(p, c, attempts[0].ans).op;
             && C.Guard(y.w.s, o, a.now) && Mutate(y.w.s, op).Commit?
             && (a.fault.RequestLost?
                 || (Commits(y.w, AllHanded(p, y, a.others)) > 0 && (a.fault.ResponseLost? || |attempts| == 1)))
    ensures IsStep(p, y, o, c, attempts, exn, [], l, attempts[0].others, 0)
  {
    hide Decide;
    hide Mutate;
    hide Remember;
    hide C.SysInv;
    hide Validated;
    var a := attempts[0];
    l := C.Store(o, a.ans, a.now, if a.fault.Delivered? then C.Conflicted else C.Lost(exn));
    AllHandedMake(p, y, a.others);
    SysValidates(y);
    GuardedIsValid(p, y, o, a.ans, a.now);
    hide Possible;
    hide After;
    hide AllHanded;
    hide Commits;
    hide ChangeSpec;
    MissSpec(y.w, o, CallsOf(p, y, o, c, attempts));
    assert C.Can(p, y, l);
    StoreMeans(p, y, o, a.ans, a.now, l.fate);
    hide C.Do;
    hide C.Can;
    hide C.Guard;
    var v := C.Do(p, y, l);
    MissedWriteKeeps(p, y, v, a.others, o);
    AssembleFirst(p, y, l, a.others, o);
    assert [] + a.others == a.others;
  }

  /** The closure raises, or the lease is lost. */
  lemma TurnRaises(p: Policy, y: C.Sys, o: Owner, c: C.Ctl, attempts: seq<Attempt>, exn: Exn)
    returns (l: C.Label)
    requires C.SysInv(y) && c.Working? && C.CtlOf(y, o) == c && attempts != [] && Feasible(p, y, o, c, attempts)
    requires C.Guard(y.w.s, o, attempts[0].now) ==> Mutate(y.w.s, C.DecisionOf(p, c, attempts[0].ans).op).Raise?
    ensures IsStep(p, y, o, c, attempts, exn, [], l, [], 0)
  {
    hide Decide;
    hide Mutate;
    hide Remember;
    hide C.SysInv;
    hide Validated;
    var a := attempts[0];
    SysValidates(y);
    l := if C.Guard(y.w.s, o, a.now) then C.Store(o, a.ans, a.now, C.Acknowledged) else C.Crash(o);
    hide Possible;
    hide After;
    hide AllHanded;
    assert C.Can(p, y, l);
    if l.Store? {
      StoreMeans(p, y, o, a.ans, a.now, C.Acknowledged);
    }
    NothingAfter(p, C.Do(p, y, l));
    AssembleFirst(p, y, l, [], o);
    hide C.Can;
  }

  lemma ConflictSpec(w: World, o: Owner, calls: seq<Call>)
    requires calls != [] && Validated(w.s) && C.Guard(w.s, o, calls[0].now)
    requires Mutate(w.s, calls[0].op).Commit? && Validated(Mutate(w.s, calls[0].op).next)
    requires Commits(w, calls[0].turn.others) > 0 && calls[0].turn.fault.Delivered?
    ensures ChangeSpec(w, o, calls) == ChangeSpec(Steps(w, calls[0].turn.others), o, calls[1..])
  {
    hide Validated;
    hide Mutate;
    hide C.Guard;
    hide Steps;
    hide Commits;
  }

  lemma Regroup(a: seq<C.Label>, rest: seq<C.Label>, l: C.Label, after: seq<C.Label>, all: seq<C.Label>)
    requires rest + after <= all
    ensures a + rest + [l] + after == a + (rest + [l] + after)
    ensures a + rest + after <= a + all
  {
    assert a + rest + after == a + (rest + after);
  }

  /** A conflict: the rest of the loop is the step, after this turn's others. */
  lemma ConflictPasses(p: Policy, y: C.Sys, o: Owner, c: C.Ctl, attempts: seq<Attempt>, exn: Exn,
                       rest: seq<C.Label>, l: C.Label, after: seq<C.Label>, k: nat)
    requires C.SysInv(y) && c.Working? && C.CtlOf(y, o) == c && attempts != [] && Feasible(p, y, o, c, attempts)
    requires var a, op := attempts[0], C.DecisionOf(p, c, attempts[0].ans).op;
             && C.Guard(y.w.s, o, a.now) && Mutate(y.w.s, op).Commit? && a.fault.Delivered?
             && Commits(y.w, AllHanded(p, y, a.others)) > 0
    requires IsStep(p, After(p, y, attempts[0].others), o, c, attempts[1..], exn, rest, l, after, k)
    ensures IsStep(p, y, o, c, attempts, exn, attempts[0].others + rest, l, after, k + 1)
  {
    hide Decide;
    hide Mutate;
    hide Remember;
    hide C.SysInv;
    hide Validated;
    hide Possible;
    hide After;
    hide AllHanded;
    hide Matches;
    hide Steps;
    hide Commits;
    var a := attempts[0];
    var m := After(p, y, a.others);
    var calls := CallsOf(p, y, o, c, attempts);
    assert calls[1..] == CallsOf(p, m, o, c, attempts[1..]) && calls[k + 1] == calls[1..][k];
    AllHandedMake(p, y, a.others);
    SysValidates(y);
    GuardedIsValid(p, y, o, a.ans, a.now);
    ConflictSpec(y.w, o, calls);
    hide ChangeSpec;
    hide C.Guard;
    AfterConcat(p, y, a.others, rest + [l] + after);
    Regroup(a.others, rest, l, after, AllOthersOf(attempts[1..]));
    hide C.Do;
    hide C.Can;
    hide Feasible;
    hide CallsOf;
  }

  /**
   * Every guarded update of every controller is exactly one step of the
   * interleaved system, whatever the other actors do between its reads and its
   * writes, whatever is lost, and however often it starts again with fresh
   * clock readings.
   */
  lemma {:induction false} ChangeIsOneStep(p: Policy, y: C.Sys, o: Owner, c: C.Ctl, attempts: seq<Attempt>, exn: Exn)
    returns (before: seq<C.Label>, l: C.Label, after: seq<C.Label>, k: nat)
    requires C.SysInv(y) && c.Working? && C.CtlOf(y, o) == c && attempts != [] && Feasible(p, y, o, c, attempts)
    ensures IsStep(p, y, o, c, attempts, exn, before, l, after, k)
    decreases attempts
  {
    hide Mutate;
    hide Decide;
    hide C.SysInv;
    hide Possible;
    hide C.Guard;
    hide AllHanded;
    hide IsStep;
    hide After;
    var a := attempts[0];
    var op := C.DecisionOf(p, c, a.ans).op;
    before, after, k := [], [], 0;
    if !C.Guard(y.w.s, o, a.now) || Mutate(y.w.s, op).Raise? {
      l := TurnRaises(p, y, o, c, attempts, exn);
    } else if !a.fault.RequestLost? && Commits(y.w, AllHanded(p, y, a.others)) == 0 {
      l := WriteArrives(p, y, o, c, attempts, exn);
      before := a.others;
    } else if !a.fault.Delivered? || |attempts| == 1 {
      l := WriteMisses(p, y, o, c, attempts, exn);
      after := a.others;
    } else {
      ForeignLeaves(p, y, a.others, o);
      AfterKeepsSysInv(p, y, a.others);
      var rest, n;
      rest, l, after, n := ChangeIsOneStep(p, After(p, y, a.others), o, c, attempts[1..], exn);
      ConflictPasses(p, y, o, c, attempts, exn, rest, l, after, n);
      before, k := a.others + rest, n + 1;
    }
  }
}
