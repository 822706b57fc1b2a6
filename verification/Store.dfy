/**
 * The optimistic store: one record with a revision, changed only by
 * compare-and-swap, and the retry loop that every writer goes through.
 */
module Store {
  import opened Bounded
  import opened ReleaseState
  import opened Authorization
  import opened Mutators
  import opened Lifecycle
  import opened Machine
  import opened Conservation
  import opened Record

  /** A request that never arrives, or a reply that is never seen. */
  datatype Fault = Delivered | RequestLost | ResponseLost

  /** One turn of the loop: who else commits between its read and its write, and how the write fares. */
  datatype Turn = Turn(others: seq<Op>, fault: Fault)

  datatype Value = Decided(result: IngestResult) | Nothing

  /** Busy and Errored are raised too; only after Errored may the update have been committed. */
  datatype Answer = Done(value: Value) | Failed(error: Error) | Rejected | OutOfRetries | Errored

  datatype Reply = Written | Conflict | Unknown

  function Returned(s: State, op: Op): Value {
    if op.Ingest? then Decided(IngestDecision(s, op.event)) else Nothing
  }

  /** Other writers' closures, one committed update each; a closure that raises writes nothing. */
  function Steps(w: World, ops: seq<Op>): World
    decreases ops
  {
    if ops == [] then w else Steps(Step(w, ops[0]), ops[1..])
  }

  function Commits(w: World, ops: seq<Op>): nat
    decreases ops
  {
    if ops == [] then 0
    else (if Mutate(w.s, ops[0]).Commit? then 1 else 0) + Commits(Step(w, ops[0]), ops[1..])
  }

  lemma {:induction false} NoCommitsNoChange(w: World, ops: seq<Op>)
    ensures Commits(w, ops) == 0 ==> Steps(w, ops) == w
    decreases ops
  {
    hide Mutate;
    hide Remember;
    if ops != [] {
      NoCommitsNoChange(Step(w, ops[0]), ops[1..]);
    }
  }

  lemma {:induction false} StepsAppend(w: World, before: seq<Op>, op: Op)
    ensures Steps(w, before + [op]) == Step(Steps(w, before), op)
    ensures Commits(w, before + [op]) == Commits(w, before) + if Mutate(Steps(w, before).s, op).Commit? then 1 else 0
    decreases before
  {
    hide Step;
    hide Mutate;
    if before == [] {
      assert Steps(Step(w, op), []) == Step(w, op);
      assert before + [op] == [op];
    } else {
      assert (before + [op])[1..] == before[1..] + [op];
      StepsAppend(Step(w, before[0]), before[1..], op);
    }
  }

  lemma {:induction false} StepsConcat(w: World, a: seq<Op>, b: seq<Op>)
    ensures Steps(w, a + b) == Steps(Steps(w, a), b)
    decreases a
  {
    hide Step;
    if a == [] {
      assert a + b == b;
    } else {
      assert (a + b)[1..] == a[1..] + b;
      StepsConcat(Step(w, a[0]), a[1..], b);
    }
  }

  // ----- the loop as a function -----------------------------------------------------

  datatype Updated = Updated(world: World, answer: Answer)

  function UpdateSpec(w: World, op: Op, turns: seq<Turn>): Updated
    decreases turns
  {
    if turns == [] then Updated(w, OutOfRetries)
    else if !Validated(w.s) then Updated(w, Rejected)
    else
      match Mutate(w.s, op)
      case Raise(e) => Updated(w, Failed(e))
      case Commit(next, _) =>
        if !Validated(next) then Updated(w, Rejected)
        else
          var t := turns[0];
          var later := Steps(w, t.others);
          if t.fault.RequestLost? then Updated(later, Errored)
          else if Commits(w, t.others) == 0 then
            Updated(Step(w, op), if t.fault.ResponseLost? then Errored else Done(Returned(w.s, op)))
          else if t.fault.ResponseLost? then Updated(later, Errored)
          else UpdateSpec(later, op, turns[1..])
  }

  function AllOthers(turns: seq<Turn>): seq<Op> {
    if turns == [] then [] else turns[0].others + AllOthers(turns[1..])
  }

  /**
   * The answer and the final world are explained by the others' steps in
   * `before`, one commit or none, and the others' steps in `after`.
   */
  ghost predicate Explains(w: World, op: Op, turns: seq<Turn>, before: seq<Op>, committed: bool, after: seq<Op>) {
    var u := UpdateSpec(w, op, turns);
    var met := Steps(w, before);
    && before + after <= AllOthers(turns)
    && u.world == (if committed then Step(met, op) else Steps(met, after))
    && (committed ==> Mutate(met.s, op).Commit? && Validated(met.s) && Validated(Mutate(met.s, op).next) && after == [])
    && match u.answer
       case Done(value) => committed && value == Returned(met.s, op)
       case Failed(e) => !committed && Mutate(met.s, op) == Raise(e) && after == []
       case Rejected =>
         !committed && after == []
         && (!Validated(met.s) || (Mutate(met.s, op).Commit? && !Validated(Mutate(met.s, op).next)))
       case OutOfRetries =>
         !committed && Commits(w, before + after) >= |turns| && (turns != [] ==> Mutate(met.s, op).Commit?)
       case Errored =>
         Mutate(met.s, op).Commit? && exists i :: 0 <= i < |turns| && !turns[i].fault.Delivered?
  }

  /** A conflict in the first turn: the rest of the loop explains the answer. */
  lemma ConflictExplained(w: World, op: Op, turns: seq<Turn>, rest: seq<Op>, committed: bool, after: seq<Op>)
    requires |turns| > 1 && Commits(w, turns[0].others) > 0
    requires Explains(Steps(w, turns[0].others), op, turns[1..], rest, committed, after)
    requires UpdateSpec(w, op, turns) == UpdateSpec(Steps(w, turns[0].others), op, turns[1..])
    ensures Explains(w, op, turns, turns[0].others + rest, committed, after)
  {
    hide Mutate;
    hide Step;
    hide Validated;
    hide Returned;
    hide UpdateSpec;
    var first := turns[0].others;
    StepsConcat(w, first, rest);
    assert first + rest + after == first + (rest + after);
    CommitsConcat(w, first, rest + after);
    hide Steps;
    hide Commits;
    if i :| 0 <= i < |turns[1..]| && !turns[1..][i].fault.Delivered? {
      assert !turns[i + 1].fault.Delivered?;
    }
  }

  /** A conflict in the last turn. */
  lemma LastConflictExplained(w: World, op: Op, turns: seq<Turn>)
    requires |turns| == 1 && Commits(w, turns[0].others) > 0 && Mutate(w.s, op).Commit?
    requires UpdateSpec(w, op, turns) == Updated(Steps(w, turns[0].others), OutOfRetries)
    ensures Explains(w, op, turns, [], false, turns[0].others)
  {
    hide Mutate;
    hide Step;
    hide Validated;
    hide Returned;
    hide UpdateSpec;
    assert AllOthers(turns) == turns[0].others + AllOthers(turns[1..]);
    assert [] + turns[0].others == turns[0].others;
  }

  /**
   * Atomicity. Whatever other writers do and whatever is lost, an update
   * commits its closure at most once, in one step, on the record that others
   * left at that moment; a caller that gets an answer learns the truth about
   * it, and only an error on the way leaves it open whether it committed.
   */
  lemma {:induction false} UpdateIsAtomic(w: World, op: Op, turns: seq<Turn>)
    returns (before: seq<Op>, committed: bool, after: seq<Op>)
    ensures Explains(w, op, turns, before, committed, after)
    decreases turns
  {
    hide Mutate;
    hide Step;
    hide Validated;
    hide Returned;
    before, committed, after := [], false, [];
    if turns != [] && Validated(w.s) && Mutate(w.s, op).Commit? && Validated(Mutate(w.s, op).next) {
      var t := turns[0];
      assert [] + t.others == t.others;
      if t.fault.RequestLost? {
        after := t.others;
      } else if Commits(w, t.others) == 0 {
        committed := true;
      } else if t.fault.ResponseLost? {
        after := t.others;
      } else if |turns| == 1 {
        assert UpdateSpec(w, op, turns) == UpdateSpec(Steps(w, t.others), op, turns[1..]);
        LastConflictExplained(w, op, turns);
        after := t.others;
        hide Explains;
      } else {
        var rest;
        rest, committed, after := UpdateIsAtomic(Steps(w, t.others), op, turns[1..]);
        ConflictExplained(w, op, turns, rest, committed, after);
        before := t.others + rest;
        hide Explains;
      }
    }
  }

  lemma {:induction false} CommitsConcat(w: World, a: seq<Op>, b: seq<Op>)
    ensures Commits(w, a + b) == Commits(w, a) + Commits(Steps(w, a), b)
    decreases a
  {
    hide Step;
    hide Mutate;
    if a == [] {
      assert a + b == b;
    } else {
      assert (a + b)[1..] == a[1..] + b;
      CommitsConcat(Step(w, a[0]), a[1..], b);
    }
  }

  /** A turn that reads m and only learns that others have committed since. */
  predicate Conflicts(m: World, op: Op, t: Turn) {
    && Validated(m.s) && Mutate(m.s, op).Commit? && Validated(Mutate(m.s, op).next)
    && t.fault.Delivered? && Commits(m, t.others) > 0
  }

  /** What a caller gets from a turn that reads m and is not such a conflict, or is the last. */
  ghost predicate Concludes(m: World, op: Op, t: Turn, u: Updated) {
    if !Validated(m.s) then u == Updated(m, Rejected)
    else if Mutate(m.s, op).Raise? then u == Updated(m, Failed(Mutate(m.s, op).error))
    else if !Validated(Mutate(m.s, op).next) then u == Updated(m, Rejected)
    else if t.fault.RequestLost? then u == Updated(Steps(m, t.others), Errored)
    else if Commits(m, t.others) == 0 then
      u == Updated(Step(m, op), if t.fault.Delivered? then Done(Returned(m.s, op)) else Errored)
    else u == Updated(Steps(m, t.others), if t.fault.Delivered? then OutOfRetries else Errored)
  }

  /** The record that turn k of the loop reads. */
  function ReadBy(w: World, turns: seq<Turn>, k: nat): World
    requires k <= |turns|
  {
    Steps(w, AllOthers(turns[..k]))
  }

  lemma ReadLater(w: World, turns: seq<Turn>, k: nat)
    requires 0 < k <= |turns|
    ensures ReadBy(w, turns, k) == ReadBy(Steps(w, turns[0].others), turns[1..], k - 1)
  {
    assert turns[..k][1..] == turns[1..][..k - 1];
    StepsConcat(w, turns[0].others, AllOthers(turns[1..][..k - 1]));
  }

  /**
   * The loop goes through turns that only met conflicts, and its answer and
   * the final world are those of the first other turn, or of the last one.
   */
  lemma {:induction false} UpdateExactly(w: World, op: Op, turns: seq<Turn>) returns (k: nat)
    requires turns != []
    ensures k < |turns| && Concludes(ReadBy(w, turns, k), op, turns[k], UpdateSpec(w, op, turns))
    ensures forall j :: 0 <= j < k ==> Conflicts(ReadBy(w, turns, j), op, turns[j])
    ensures k + 1 < |turns| ==> !Conflicts(ReadBy(w, turns, k), op, turns[k])
    decreases turns
  {
    hide Validated;
    hide Mutate;
    hide Remember;
    k := 0;
    assert ReadBy(w, turns, 0) == w;
    if Conflicts(w, op, turns[0]) {
      var later := Steps(w, turns[0].others);
      assert UpdateSpec(w, op, turns) == UpdateSpec(later, op, turns[1..]);
      if |turns| > 1 {
        var n := UpdateExactly(later, op, turns[1..]);
        k := n + 1;
        hide UpdateSpec;
        hide ReadBy;
        hide Conflicts;
        hide Concludes;
        ReadLater(w, turns, k);
        forall j | 0 <= j < k
          ensures Conflicts(ReadBy(w, turns, j), op, turns[j])
        {
          if j > 0 {
            ReadLater(w, turns, j);
            assert turns[1..][j - 1] == turns[j];
          }
        }
      }
    }
  }

  /** Every closure in the list fits the record it meets. */
  ghost predicate FitsRun(w: World, ops: seq<Op>)
    decreases ops
  {
    ops == [] || (Fits(w.s, ops[0]) && FitsRun(Step(w, ops[0]), ops[1..]))
  }

  lemma {:induction false} FitsPrefix(w: World, before: seq<Op>, ops: seq<Op>)
    requires before <= ops && FitsRun(w, ops)
    ensures FitsRun(w, before)
    decreases before
  {
    hide Step;
    hide Fits;
    if before != [] {
      FitsPrefix(Step(w, before[0]), before[1..], ops[1..]);
    }
  }

  lemma {:induction false} FitsConcat(w: World, a: seq<Op>, b: seq<Op>)
    requires FitsRun(w, a) && FitsRun(Steps(w, a), b)
    ensures FitsRun(w, a + b)
    decreases a
  {
    hide Step;
    hide Fits;
    if a == [] {
      assert a + b == b;
    } else {
      assert (a + b)[1..] == a[1..] + b;
      FitsConcat(Step(w, a[0]), a[1..], b);
    }
  }

  lemma {:induction false} StepsKeepInv(w: World, ops: seq<Op>)
    requires Inv(w) && FitsRun(w, ops)
    ensures Inv(Steps(w, ops))
    decreases ops
  {
    hide Step;
    hide Fits;
    hide Inv;
    if ops != [] {
      StepKeepsInv(w, ops[0]);
      StepsKeepInv(Step(w, ops[0]), ops[1..]);
    }
  }

  lemma InvValidates(w: World)
    requires Inv(w)
    ensures Validated(w.s)
  {
    RecordInvValidates(w.s);
  }

  lemma FittingValidates(w: World, op: Op)
    requires Inv(w) && Fits(w.s, op)
    ensures Validated(w.s) && (Mutate(w.s, op).Commit? ==> Validated(Mutate(w.s, op).next))
  {
    InvValidates(w);
    StepKeepsInv(w, op);
    hide Inv;
    if Mutate(w.s, op).Commit? {
      InvValidates(Step(w, op));
    }
    hide Mutate;
    hide Validated;
    hide Remember;
  }

  /** Validation never rejects an update whose closure fits wherever it is tried. */
  lemma NeverRejected(w: World, op: Op, turns: seq<Turn>)
    requires Inv(w) && FitsRun(w, AllOthers(turns))
    requires forall before :: before <= AllOthers(turns) ==> Fits(Steps(w, before).s, op)
    ensures !UpdateSpec(w, op, turns).answer.Rejected?
  {
    hide Inv;
    hide Fits;
    hide Validated;
    hide Mutate;
    hide Remember;
    var before, committed, after := UpdateIsAtomic(w, op, turns);
    hide UpdateSpec;
    assert before <= before + after;
    FitsPrefix(w, before, AllOthers(turns));
    StepsKeepInv(w, before);
    hide Steps;
    var met := Steps(w, before);
    FittingValidates(met, op);
  }

  // ----- the loop as it is written ---------------------------------------------------

  class Backend {
    var revision: nat
    var state: State
    ghost var world: World

    ghost predicate Valid()
      reads this
    {
      state == world.s
    }

    constructor (stable: Option<Serving>)
      ensures Valid() && world == InitialWorld(stable)
    {
      revision, state, world := 0, InitialState(stable), InitialWorld(stable);
    }

    /** Updates that other writers commit meanwhile. */
    method Interfere(others: seq<Op>)
      requires Valid()
      modifies this
      ensures Valid() && world == Steps(old(world), others)
      ensures revision == old(revision) + Commits(old(world), others)
    {
      hide Mutate;
      hide Remember;
      assert others[..0] == [];
      for i := 0 to |others|
        invariant Valid() && world == Steps(old(world), others[..i])
        invariant revision == old(revision) + Commits(old(world), others[..i])
      {
        assert others[..i + 1] == others[..i] + [others[i]];
        StepsAppend(old(world), others[..i], others[i]);
        var draft := new Draft(state);
        var error := draft.Run(others[i]);
        world := Step(world, others[i]);
        if error.None? {
          state, revision := draft.View(), revision + 1;
        }
      }
      assert others[..|others|] == others;
    }

    method Write(expected: nat, next: State, fault: Fault, ghost op: Op) returns (reply: Reply)
      requires Valid() && (revision == expected ==> Mutate(state, op).Commit? && Mutate(state, op).next == next)
      modifies this
      ensures Valid()
      ensures world == if !fault.RequestLost? && old(revision) == expected then Step(old(world), op) else old(world)
      ensures reply == if !fault.Delivered? then Unknown else if old(revision) == expected then Written else Conflict
    {
      hide Mutate;
      hide Remember;
      if fault.RequestLost? {
        return Unknown;
      }
      if revision == expected {
        world := Step(world, op);
        state, revision := next, revision + 1;
        return if fault.ResponseLost? then Unknown else Written;
      }
      return if fault.ResponseLost? then Unknown else Conflict;
    }
  }

  /** Read, change a copy, validate it, write it back; after a conflict read again, in eight turns by default. */
  method Update(backend: Backend, op: Op, turns: seq<Turn>) returns (answer: Answer)
    requires backend.Valid()
    modifies backend
    ensures backend.Valid()
    ensures Updated(backend.world, answer) == UpdateSpec(old(backend.world), op, turns)
  {
    hide Mutate;
    hide Step;
    hide Validated;
    var i := 0;
    assert turns[0..] == turns;
    while i < |turns|
      invariant i <= |turns| && backend.Valid()
      invariant UpdateSpec(backend.world, op, turns[i..]) == UpdateSpec(old(backend.world), op, turns)
    {
      assert turns[i..][1..] == turns[i + 1..] && turns[i..][0] == turns[i];
      var expected, original := backend.revision, backend.state;
      if !Validated(original) {
        return Rejected;
      }
      var draft := new Draft(original);
      var error := draft.Run(op);
      if error.Some? {
        return Failed(error.value);
      }
      var next := draft.View();
      if !Validated(next) {
        return Rejected;
      }
      ghost var read := backend.world;
      backend.Interfere(turns[i].others);
      NoCommitsNoChange(read, turns[i].others);
      var reply := backend.Write(expected, next, turns[i].fault, op);
      if reply.Written? {
        return Done(Returned(original, op));
      }
      if reply.Unknown? {
        return Errored;
      }
      i := i + 1;
    }
    return OutOfRetries;
  }
}
