/** Queue messages are deleted only after the record durably accounts for them. */
module Consumer {
  import opened Bounded
  import opened ReleaseState
  import opened Authorization
  import opened Mutators
  import opened Lifecycle
  import opened Machine
  import opened Conservation
  import opened Store

  /** `event` is None for a body that does not parse. */
  datatype Message = Message(event: Option<Event>, receipt: string)

  /** One delivery: what other writers do before it and during its store turns, and how the deletion fares. */
  datatype Delivery = Delivery(message: Message, between: seq<Op>, turns: seq<Turn>, deletion: Fault)

  datatype Handled = Returns(result: IngestResult) | Raises

  /** The decision of the store, when the message may be deleted. */
  function Settled(answer: Answer): Option<IngestResult> {
    if answer.Done? && answer.value.Decided? && answer.value.result != IdentityConflict
    then Some(answer.value.result) else None
  }

  function DeliverySpec(w: World, d: Delivery): (World, Handled, bool) {
    match d.message.event
    case None => (w, Raises, false)
    case Some(e) =>
      var u := UpdateSpec(w, Ingest(e), d.turns);
      match Settled(u.answer)
      case None => (u.world, Raises, false)
      case Some(result) =>
        (u.world, if d.deletion.Delivered? then Returns(result) else Raises, !d.deletion.RequestLost?)
  }

  class Queue {
    var deleted: seq<Message>

    method Delete(message: Message, fault: Fault) returns (ok: bool)
      modifies this
      ensures deleted == if fault.RequestLost? then old(deleted) else old(deleted) + [message]
      ensures ok == fault.Delivered?
    {
      if !fault.RequestLost? {
        deleted := deleted + [message];
      }
      return fault.Delivered?;
    }
  }

  method HandleMessage(queue: Queue, backend: Backend, d: Delivery) returns (handled: Handled)
    requires backend.Valid()
    modifies queue, backend
    ensures backend.Valid()
    ensures var spec := DeliverySpec(old(backend.world), d);
            && backend.world == spec.0 && handled == spec.1
            && queue.deleted == old(queue.deleted) + (if spec.2 then [d.message] else [])
  {
    hide UpdateSpec;
    if d.message.event.None? {
      return Raises;
    }
    var answer := Update(backend, Ingest(d.message.event.value), d.turns);
    if !answer.Done? {
      return Raises;
    }
    if answer.value == Decided(IdentityConflict) || answer.value.Nothing? {
      return Raises;
    }
    var ok := queue.Delete(d.message, d.deletion);
    return if ok then Returns(answer.value.result) else Raises;
  }

  // ----- one delivery ------------------------------------------------------------------

  /** What no later step can undo. */
  ghost predicate Grows(w: World, v: World) {
    w.s.highest <= v.s.highest && w.h.accepted <= v.h.accepted
  }

  lemma StepGrows(w: World, op: Op)
    requires PhaseOk(w.s) && Fits(w.s, op)
    ensures Grows(w, Step(w, op))
  {
    hide Fits;
    hide PhaseOk;
    hide Mutate;
    if Mutate(w.s, op).Commit? {
      HighestNeverDecreases(w.s, op);
    }
    StepAppendsLists(w, op);
    hide Remember;
  }

  lemma {:induction false} StepsGrow(w: World, ops: seq<Op>)
    requires Inv(w) && FitsRun(w, ops)
    ensures Inv(Steps(w, ops)) && Grows(w, Steps(w, ops))
    decreases ops
  {
    hide Step;
    hide Fits;
    if ops != [] {
      StepKeepsInv(w, ops[0]);
      assert PhaseOk(w.s);
      hide Inv;
      StepGrows(w, ops[0]);
      StepsGrow(Step(w, ops[0]), ops[1..]);
    }
  }

  lemma KnownIsAccepted(w: World, e: Event)
    requires WindowsOk(w) && AcceptedOk(w) && IngestDecision(w.s, e) == Duplicate
    ensures IdentityOf(e) in w.h.accepted && e.version <= w.s.highest
  {
    KnownValue(w.s.identities, e.version);
    assert IdentityOf(e) in w.s.identities;
    var i :| 0 <= i < |w.h.accepted| && w.h.accepted[i] == IdentityOf(e);
  }

  lemma {:induction false} KnownValue(ids: seq<Identity>, version: nat)
    ensures Known(ids, version).Some? ==>
              Known(ids, version).value in ids && Known(ids, version).value.version == version
  {
    if ids != [] && ids[0].version != version {
      KnownValue(ids[1..], version);
    }
  }

  /** The decision that a committed ingestion returns is true of the record it leaves. */
  lemma IngestIsDurable(w: World, e: Event)
    requires Inv(w) && Mutate(w.s, Ingest(e)).Commit? && IngestDecision(w.s, e) != IdentityConflict
    ensures var v := Step(w, Ingest(e));
            && e.version <= v.s.highest
            && (IngestDecision(w.s, e) in {Accept, Duplicate} ==> IdentityOf(e) in v.h.accepted)
            && (IngestDecision(w.s, e) == Accept <==> v.h.accepted == w.h.accepted + [IdentityOf(e)])
  {
    if IngestDecision(w.s, e) == Duplicate {
      KnownIsAccepted(w, e);
    }
    hide Inv;
    assert Mutate(w.s, Ingest(e)) == IngestOp(w.s, e);
    hide Mutate;
  }

  /** A message is deleted exactly when the update returned acceptance, a duplicate or a stale version. */
  lemma DeletesExactly(w: World, d: Delivery)
    ensures var spec, event := DeliverySpec(w, d), d.message.event;
            && (event.None? ==> spec == (w, Raises, false))
            && (event.Some? ==>
                  var u := UpdateSpec(w, Ingest(event.value), d.turns);
                  && spec.0 == u.world
                  && (spec.2 <==>
                        && u.answer in {Done(Decided(Accept)), Done(Decided(Duplicate)), Done(Decided(Stale))}
                        && !d.deletion.RequestLost?)
                  && (spec.1.Returns? <==> spec.2 && d.deletion.Delivered?)
                  && (spec.1.Returns? ==> u.answer == Done(Decided(spec.1.result))))
  {
    hide UpdateSpec;
  }

  /**
   * One delivery that nothing disturbs: a version greater than every accepted
   * one is accepted and deleted when the queue has room, a version that the
   * identities know by another event stays in the queue, any other is deleted.
   */
  lemma QuietDelivery(w: World, e: Event, receipt: string)
    requires Inv(w)
    ensures var spec := DeliverySpec(w, Delivery(Message(Some(e), receipt), [], [Turn([], Delivered)], Delivered));
            var same := Identity(e.version, e.uri, e.run) in w.s.identities;
            if e.version > w.s.highest && |w.s.pending| >= 20 then spec == (w, Raises, false)
            else
              && spec.0 == Step(w, Ingest(e))
              && spec.1 == (if e.version > w.s.highest then Returns(Accept)
                            else if same then Returns(Duplicate)
                            else if e.version in Versions(w.s.identities) then Raises
                            else Returns(Stale))
              && spec.2 == spec.1.Returns?
  {
    QuietUpdate(w, e);
    hide UpdateSpec;
    hide Step;
    IngestExactly(w, e);
    hide Inv;
    hide Mutate;
    hide IngestDecision;
  }

  lemma QuietUpdate(w: World, e: Event)
    requires Inv(w)
    ensures UpdateSpec(w, Ingest(e), [Turn([], Delivered)])
            == if Mutate(w.s, Ingest(e)).Raise? then Updated(w, Failed(Mutate(w.s, Ingest(e)).error))
               else Updated(Step(w, Ingest(e)), Done(Decided(IngestDecision(w.s, e))))
  {
    FittingValidates(w, Ingest(e));
    hide Inv;
    hide Validated;
    hide Mutate;
    hide Remember;
    hide IngestDecision;
    assert Steps(w, []) == w && Commits(w, []) == 0;
  }

  /** A message is deleted only when its version is covered, and its identity recorded unless it is stale. */
  lemma DeletedIsDurable(w: World, d: Delivery)
    requires Inv(w) && FitsRun(w, AllOthers(d.turns))
    ensures var spec := DeliverySpec(w, d);
            && Inv(spec.0) && Grows(w, spec.0)
            && (spec.2 ==>
                  d.message.event.Some?
                  && var e := d.message.event.value;
                  var result := Settled(UpdateSpec(w, Ingest(e), d.turns).answer);
                  && result.Some?
                  && e.version <= spec.0.s.highest
                  && (result.value != Stale ==> IdentityOf(e) in spec.0.h.accepted))
  {
    hide Inv;
    hide Mutate;
    hide Step;
    hide Validated;
    if d.message.event.Some? {
      var e := d.message.event.value;
      var before, committed, after := UpdateIsAtomic(w, Ingest(e), d.turns);
      hide UpdateSpec;
      FitsPrefix(w, before + after, AllOthers(d.turns));
      StepsGrow(w, before + after);
      StepsConcat(w, before, after);
      var met := Steps(w, before);
      if committed {
        assert before + after == before;
        StepKeepsInv(met, Ingest(e));
        InvHasPhase(met);
        StepGrows(met, Ingest(e));
        if IngestDecision(met.s, e) != IdentityConflict {
          IngestIsDurable(met, e);
        }
      }
    }
  }

  lemma InvHasPhase(w: World)
    requires Inv(w)
    ensures PhaseOk(w.s)
  {
  }

  // ----- whole runs of deliveries ---------------------------------------------------------

  /** The world and the deleted messages after a list of deliveries, repeats and failures included. */
  function Consume(w: World, deleted: seq<Message>, ds: seq<Delivery>): (World, seq<Message>)
    decreases ds
  {
    if ds == [] then (w, deleted)
    else
      var spec := DeliverySpec(Steps(w, ds[0].between), ds[0]);
      Consume(spec.0, deleted + (if spec.2 then [ds[0].message] else []), ds[1..])
  }

  ghost predicate FitsAll(w: World, ds: seq<Delivery>)
    decreases ds
  {
    ds == [] ||
    (var met := Steps(w, ds[0].between);
     && FitsRun(w, ds[0].between) && FitsRun(met, AllOthers(ds[0].turns))
     && FitsAll(DeliverySpec(met, ds[0]).0, ds[1..]))
  }

  ghost predicate Covered(w: World, deleted: seq<Message>) {
    forall i :: 0 <= i < |deleted| ==> deleted[i].event.Some? && deleted[i].event.value.version <= w.s.highest
  }

  /**
   * Nothing is lost: over any run of deliveries, with redelivery, crashes
   * between commit and deletion, and writes of unknown fate, every deleted
   * message is a well-formed event whose version the record has covered.
   */
  lemma {:induction false} EveryDeletedIsCovered(w: World, deleted: seq<Message>, ds: seq<Delivery>)
    requires Inv(w) && Covered(w, deleted) && FitsAll(w, ds)
    ensures var r := Consume(w, deleted, ds);
            Inv(r.0) && Grows(w, r.0) && Covered(r.0, r.1) && deleted <= r.1
    decreases ds
  {
    hide Inv;
    hide DeliverySpec;
    if ds != [] {
      var met := Steps(w, ds[0].between);
      StepsGrow(w, ds[0].between);
      DeletedIsDurable(met, ds[0]);
      var spec := DeliverySpec(met, ds[0]);
      var more := deleted + (if spec.2 then [ds[0].message] else []);
      EveryDeletedIsCovered(spec.0, more, ds[1..]);
    }
  }

  /** However often messages are delivered, each version is accepted at most once. */
  lemma RedeliveryAcceptsOnce(w: World, deleted: seq<Message>, ds: seq<Delivery>)
    requires Inv(w) && Covered(w, deleted) && FitsAll(w, ds)
    ensures var h := Consume(w, deleted, ds).0.h;
            forall i, j :: 0 <= i < j < |h.accepted| ==> h.accepted[i].version != h.accepted[j].version
  {
    EveryDeletedIsCovered(w, deleted, ds);
    hide Consume;
    AtMostOnce(Consume(w, deleted, ds).0);
    hide Inv;
  }
}
