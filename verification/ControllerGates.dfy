/**
 Who let a pointer move happen: in every interleaving of controllers and direct clients, each
 receipt goes back to the gates that were asked about it.

 A controller is asked twice.  When a call has read the record it is about, the outside checks
 that record and, for an activation, yields the digest of the approval; inside the transaction
 the outside is asked again about the record then stored.
 */
module ControllerGates {
  import opened Common
  import opened RuntimeModels
  import opened StoreSpec
  import opened StoreInvariant
  import opened StoreGuards
  import opened StoreHistory
  import opened SwapController

  // ----------------------------------------------------------------- where calls come from

  /** The call was started at this point of the run, with these arguments. */
  predicate StartedAt(steps: seq<Step>, k: nat, id: nat, call: Call) {
    && k < |steps|
    && steps[k] == if call.Activating? then StartActivate(id, call.scope, call.prepared, call.ticket)
                   else StartRollback(id, call.scope, call.source, call.ticket)
  }

  /** At this point of the run the outside accepted the preparation the call had read, and its approval. */
  predicate PreparationAccepted(steps: seq<Step>, j: nat, id: nat, prepared: string, record: Prepared,
                                approval: Digest) {
    && j < |steps| && steps[j].Advance? && steps[j].id == id
    && steps[j].input.accepted && steps[j].input.approval == Some(approval)
    && var t := Run(START, steps[..j]).tables;
       prepared in t.prepared && t.prepared[prepared] == record
  }

  /** At this point of the run the outside accepted the activation the call had read. */
  predicate SourceAccepted(steps: seq<Step>, j: nat, id: nat, receipt: Receipt) {
    && j < |steps| && steps[j].Advance? && steps[j].id == id && steps[j].input.accepted
    && receipt in Run(START, steps[..j]).tables.receipts
  }

  ghost predicate CallGrounded(steps: seq<Step>, id: nat, call: Call) {
    && (exists k :: StartedAt(steps, k, id, call))
    && (call.Activating? && call.activation.CommitActivation? ==>
          exists j :: PreparationAccepted(steps, j, id, call.prepared, call.activation.record,
                                          call.activation.approval))
    && (call.RollingBack? && call.rollback.CommitRollback? ==>
          exists j :: SourceAccepted(steps, j, id, call.rollback.receipt))
  }

  lemma GroundedLater(steps: seq<Step>, step: Step, id: nat, call: Call)
    requires CallGrounded(steps, id, call)
    ensures CallGrounded(steps + [step], id, call)
  {
    hide Run;
    var more := steps + [step];
    assert forall k: nat | k < |steps| :: more[k] == steps[k] && more[..k] == steps[..k];
    var k :| StartedAt(steps, k, id, call);
    assert StartedAt(more, k, id, call);
    if call.Activating? && call.activation.CommitActivation? {
      var j :| PreparationAccepted(steps, j, id, call.prepared, call.activation.record, call.activation.approval);
      assert PreparationAccepted(more, j, id, call.prepared, call.activation.record, call.activation.approval);
    }
    if call.RollingBack? && call.rollback.CommitRollback? {
      var j :| SourceAccepted(steps, j, id, call.rollback.receipt);
      assert SourceAccepted(more, j, id, call.rollback.receipt);
    }
  }

  /** Every call of every run was started, and what it carries into its transaction was accepted before. */
  lemma {:induction false} CallsAreGrounded(steps: seq<Step>, id: nat)
    requires id in Run(START, steps).calls
    ensures CallGrounded(steps, id, Run(START, steps).calls[id])
    decreases |steps|
  {
    hide CallGrounded, Next;
    if steps == [] {
    } else {
      var n := |steps| - 1;
      var before, step := steps[..n], steps[n];
      assert steps == before + [step];
      var sys := Run(START, before);
      if id in sys.calls {
        CallsAreGrounded(before, id);
        GroundedLater(before, step, id, sys.calls[id]);
      }
      StepGrounds(before, step, id);
    }
  }

  lemma StepGrounds(steps: seq<Step>, step: Step, id: nat)
    requires var sys := Run(START, steps);
             id in Next(sys, step).calls && (id in sys.calls ==> CallGrounded(steps + [step], id, sys.calls[id]))
    ensures CallGrounded(steps + [step], id, Next(Run(START, steps), step).calls[id])
  {
    hide Run, Apply, ActivatePrepared, RollbackReceipt, Find;
    var more, n := steps + [step], |steps|;
    assert more[n] == step && more[..n] == steps;
    var sys := Run(START, steps);
    var call := Next(sys, step).calls[id];
    if id !in sys.calls {
      assert StartedAt(more, n, id, call);
    } else if call != sys.calls[id] {
      var k :| StartedAt(more, k, id, sys.calls[id]);
      assert StartedAt(more, k, id, call);
      if call.Activating? && call.activation.CommitActivation? {
        assert PreparationAccepted(more, n, id, call.prepared, call.activation.record, call.activation.approval);
      }
      if call.RollingBack? && call.rollback.CommitRollback? {
        assert SourceAccepted(more, n, id, call.rollback.receipt);
      }
    }
  }

  // --------------------------------------------------------------------- what moved the pointer

  /** The transaction a step runs, if it runs one. */
  ghost function Attempt(sys: System, step: Step): Option<Event> {
    match step
    case Transaction(event) => Some(event)
    case StartActivate(_, _, _, _) => None
    case StartRollback(_, _, _, _) => None
    case Advance(id, input) =>
      if id !in sys.calls then None
      else
        match sys.calls[id]
        case Activating(scope, prepared, ticket, CommitActivation(record, approval)) =>
          var gate := LoadPrepared(sys.tables, scope, prepared) == Some(record) && input.accepted;
          Some(ActivateEvent(scope, prepared, ticket, approval, gate, input.receiptId, input.now))
        case RollingBack(scope, source, ticket, CommitRollback(receipt)) =>
          var gate := Find(sys.tables.receipts, ById(scope, source)) == Some(receipt) && input.accepted;
          Some(RollbackEvent(scope, source, ticket, gate, input.receiptId, input.now))
        case _ => None
  }

  /** Nothing else a step does touches the store, so every run of controllers is a run of the store. */
  lemma StepIsTransaction(sys: System, step: Step)
    ensures var attempt := Attempt(sys, step);
            Next(sys, step).tables == if attempt.Some? then Apply(sys.tables, attempt.value) else sys.tables
  {
    hide ActivatePrepared, RollbackReceipt, Find, Initialize, BeginAction, EndAction, Reconcile, ReserveBoundary,
      ConsumeBoundary, SavePrepared, LoadPrepared;
  }

  /** The receipt came from an authorised transaction of a direct client. */
  ghost predicate MovedDirectly(sys: System, step: Step, r: Receipt) {
    && step.Transaction? && Grounds(sys.tables, step.event, r)
    && (step.event.ActivateEvent? || step.event.RollbackEvent?) && step.event.authorized
  }

  /** The receipt came from a call whose gate accepted it in its transaction. */
  ghost predicate MovedByCall(sys: System, step: Step, r: Receipt) {
    && step.Advance? && step.id in sys.calls && step.input.accepted
    && r.id == step.input.receiptId
    && var call := sys.calls[step.id];
    && call.scope == r.scope && call.ticket.id == r.ticket && step.input.now < call.ticket.expiresAt
    && if r.Activation? then
         && call.Activating? && call.activation.CommitActivation? && call.prepared == r.prepared
         && r.prepared in sys.tables.prepared && sys.tables.prepared[r.prepared] == call.activation.record
         && step.input.now < call.activation.record.expiresAt
         && r.approval == call.activation.approval
       else
         && call.RollingBack? && call.rollback.CommitRollback? && call.source == r.source == call.rollback.receipt.id
         && call.rollback.receipt in sys.tables.receipts && call.rollback.receipt.operation == r.operation
  }

  lemma MoveStep(sys: System, step: Step, r: Receipt)
    requires SystemOk(sys) && r in Next(sys, step).tables.receipts && r !in sys.tables.receipts
    ensures MovedDirectly(sys, step, r) || MovedByCall(sys, step, r)
  {
    hide Inv, Apply, Next, Find;
    StepIsTransaction(sys, step);
    var e := Attempt(sys, step).value;
    ReceiptStep(sys.tables, e, r);
    if r.Rollback? {
      var source :| RollsBack(sys.tables, e, source) && r == RollbackOf(sys.tables, e, source);
      if step.Advance? {
        OneReceiptPerId(sys.tables, source, sys.calls[step.id].rollback.receipt);
      }
    }
  }

  /**
   In every interleaving each pointer move was let through by a gate: an authorised transaction
   of a direct client, or a controller's call.  Such a call was started with the scope, the
   record and the ticket of the move; the outside accepted the record it had read, with the
   approval the receipt carries, and accepted it again, unchanged and in time, in the
   transaction.
   */
  lemma {:induction false} MovesAreGated(steps: seq<Step>, r: Receipt) returns (i: nat)
    requires r in Run(START, steps).tables.receipts
    ensures i < |steps|
    ensures var sys, step := Run(START, steps[..i]), steps[i];
            || MovedDirectly(sys, step, r)
            || (&& MovedByCall(sys, step, r)
                && var call := sys.calls[step.id];
                && (exists k :: StartedAt(steps[..i], k, step.id, call))
                && (r.Activation? ==> exists j ::
                      PreparationAccepted(steps[..i], j, step.id, r.prepared, call.activation.record, r.approval))
                && (r.Rollback? ==> exists j :: SourceAccepted(steps[..i], j, step.id, call.rollback.receipt)))
    decreases |steps|
  {
    hide Next, MovedDirectly, SystemOk, StartedAt, PreparationAccepted, SourceAccepted;
    var n := |steps| - 1;
    var before, step := steps[..n], steps[n];
    var sys := Run(START, before);
    if r in sys.tables.receipts {
      i := MovesAreGated(before, r);
      assert before[..i] == steps[..i] && before[i] == steps[i];
    } else {
      i := n;
      RunKeeps(before);
      MoveStep(sys, step, r);
      if !MovedDirectly(sys, step, r) {
        CallsAreGrounded(before, step.id);
      }
    }
  }

  /**
   A call that the outside turns down raises and leaves no receipt: whether it refuses the record
   that was read, has no approval for it, or refuses it in the transaction.
   */
  lemma RefusedCalls(t: Tables, call: Call, input: Input)
    requires Inv(t)
    ensures call.Activating? && call.activation.ReadPrepared? && (!input.accepted || input.approval.None?) ==>
              AdvanceActivate(t, call, input) == (t, ActivationRaised)
    ensures call.Activating? && call.activation.CommitActivation? && !input.accepted ==>
              AdvanceActivate(t, call, input).0 == t
    ensures call.RollingBack? && call.rollback.ReadSource? && !input.accepted ==>
              AdvanceRollback(t, call, input) == (t, RollbackRaised)
    ensures call.RollingBack? && call.rollback.CommitRollback? && !input.accepted ==>
              AdvanceRollback(t, call, input).0 == t
  {
    hide Inv, RowError, RowConsistent, Find, Commit;
  }

  /**
   And a call that nothing stands in the way of goes through: from an idle scope at its
   preparation's binding, with a spendable ticket for it and both gates open, an `activate` call
   returns the receipt of the move it has made after its three steps.
   */
  lemma OpenGates(t: Tables, scope: ScopeId, prepared: string, ticket: Ticket, approval: Digest, input: Input)
    requires Inv(t) && input.accepted && input.approval == Some(approval)
    requires Activates(t, ActivateEvent(scope, prepared, ticket, approval, true, input.receiptId, input.now))
    ensures var call := Activating(scope, prepared, ticket, FindActivation);
            var e := ActivateEvent(scope, prepared, ticket, approval, true, input.receiptId, input.now);
            var read := call.(activation := ReadPrepared);
            var commit := call.(activation := CommitActivation(t.prepared[prepared], approval));
            && AdvanceActivate(t, call, input) == (t, ReadPrepared)
            && AdvanceActivate(t, read, input) == (t, commit.activation)
            && AdvanceActivate(t, commit, input) == (Apply(t, e), Activated(ActivationOf(t, e)))
  {
    hide Inv, Apply, ActivatePrepared, Find, Spendable;
    var e := ActivateEvent(scope, prepared, ticket, approval, true, input.receiptId, input.now);
    ActivateCommits(t, e);
    StoredUnderId(t, prepared);
    var found := Find(t.receipts, ActivationByPrepared(scope, prepared));
    if found.Some? {
      ActivationFacts(t, found.value);
      assert false;
    }
  }

  /** Likewise for a `rollback` call. */
  lemma OpenRollback(t: Tables, scope: ScopeId, sourceId: string, ticket: Ticket, input: Input, source: Receipt)
    requires Inv(t) && input.accepted
    requires RollsBack(t, RollbackEvent(scope, sourceId, ticket, true, input.receiptId, input.now), source)
    ensures var call := RollingBack(scope, sourceId, ticket, FindRollback);
            var e := RollbackEvent(scope, sourceId, ticket, true, input.receiptId, input.now);
            var read := call.(rollback := ReadSource);
            var commit := call.(rollback := CommitRollback(source));
            && AdvanceRollback(t, call, input) == (t, ReadSource)
            && AdvanceRollback(t, read, input) == (t, commit.rollback)
            && AdvanceRollback(t, commit, input) == (Apply(t, e), RolledBack(RollbackOf(t, e, source)))
  {
    hide Inv, Apply, RollbackReceipt, Find, Spendable;
    var e := RollbackEvent(scope, sourceId, ticket, true, input.receiptId, input.now);
    RollbackCommits(t, e);
    var byId := Find(t.receipts, ById(scope, sourceId));
    OneReceiptPerId(t, source, byId.value);
    var found := Find(t.receipts, RollbackBySource(scope, sourceId));
    if found.Some? {
      var source' := SourceOf(t, found.value);
      OneReceiptPerId(t, source, source');
      assert false;
    }
  }
}
