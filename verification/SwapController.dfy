/**
 Any number of controllers driving one runtime store.

 A controller's `activate` and `rollback` are not atomic: each looks for a durable receipt,
 then reads the record it is about, then runs one store transaction.  Between those steps
 every other controller, and every direct client of the store, may run transactions.
 */
module SwapController {
  import opened Common
  import opened RuntimeModels
  import opened StoreSpec
  import opened StoreInvariant

  datatype Call =
    | Activating(scope: ScopeId, prepared: string, ticket: Ticket, activation: ActivateStep)
    | RollingBack(scope: ScopeId, source: string, ticket: Ticket, rollback: RollbackStep)

  datatype ActivateStep =
    | FindActivation
    | ReadPrepared
    | CommitActivation(record: Prepared, approval: Digest)
    | Activated(receipt: Receipt)
    | ActivationRaised

  datatype RollbackStep =
    | FindRollback
    | ReadSource
    | CommitRollback(receipt: Receipt)
    | RolledBack(undo: Receipt)
    | RollbackRaised

  /** What the outside contributes to one step of a call. */
  datatype Input = Input(accepted: bool, approval: Option<Digest>, receiptId: string, now: Instant)

  datatype System = System(tables: Tables, calls: map<nat, Call>)

  datatype Step =
    | Transaction(event: Event)
    | StartActivate(id: nat, scope: ScopeId, prepared: string, ticket: Ticket)
    | StartRollback(id: nat, scope: ScopeId, source: string, ticket: Ticket)
    | Advance(id: nat, input: Input)

  const START := System(EMPTY, map[])

  /** The next step of an `activate` call: new tables and where the call stands. */
  function AdvanceActivate(t: Tables, call: Call, input: Input): (Tables, ActivateStep)
    requires call.Activating?
  {
    match call.activation {
      case FindActivation =>
        var replay := Find(t.receipts, ActivationByPrepared(call.scope, call.prepared));
        (t, if replay.Some? then Activated(replay.value) else ReadPrepared)
      case ReadPrepared =>
        var record := LoadPrepared(t, call.scope, call.prepared);
        (t, if record.None? || !input.accepted || input.approval.None? then ActivationRaised
            else CommitActivation(record.value, input.approval.value))
      case CommitActivation(record, approval) =>
        // The gate compares the record inside the transaction with the one that was checked.
        var gate := LoadPrepared(t, call.scope, call.prepared) == Some(record) && input.accepted;
        var outcome := ActivatePrepared(t, call.scope, call.prepared, call.ticket, approval, gate, input.receiptId,
                                        input.now);
        (After(t, outcome), if outcome.Done? then Activated(outcome.value) else ActivationRaised)
      case Activated(_) => (t, call.activation)
      case ActivationRaised => (t, call.activation)
    }
  }

  function AdvanceRollback(t: Tables, call: Call, input: Input): (Tables, RollbackStep)
    requires call.RollingBack?
  {
    match call.rollback {
      case FindRollback =>
        var replay := Find(t.receipts, RollbackBySource(call.scope, call.source));
        (t, if replay.Some? then RolledBack(replay.value) else ReadSource)
      case ReadSource =>
        var source := Find(t.receipts, ById(call.scope, call.source));
        (t, if source.None? || !source.value.Activation? || !input.accepted then RollbackRaised
            else CommitRollback(source.value))
      case CommitRollback(source) =>
        var gate := Find(t.receipts, ById(call.scope, call.source)) == Some(source) && input.accepted;
        var outcome := RollbackReceipt(t, call.scope, call.source, call.ticket, gate, input.receiptId, input.now);
        (After(t, outcome), if outcome.Done? then RolledBack(outcome.value) else RollbackRaised)
      case RolledBack(_) => (t, call.rollback)
      case RollbackRaised => (t, call.rollback)
    }
  }

  function Next(sys: System, step: Step): System {
    match step {
      case Transaction(event) => sys.(tables := Apply(sys.tables, event))
      case StartActivate(id, scope, prepared, ticket) =>
        if id in sys.calls then sys
        else sys.(calls := sys.calls[id := Activating(scope, prepared, ticket, FindActivation)])
      case StartRollback(id, scope, source, ticket) =>
        if id in sys.calls then sys
        else sys.(calls := sys.calls[id := RollingBack(scope, source, ticket, FindRollback)])
      case Advance(id, input) =>
        if id !in sys.calls then sys
        else
          match sys.calls[id] {
            case Activating(_, _, _, _) =>
              var (t, activation) := AdvanceActivate(sys.tables, sys.calls[id], input);
              System(t, sys.calls[id := sys.calls[id].(activation := activation)])
            case RollingBack(_, _, _, _) =>
              var (t, rollback) := AdvanceRollback(sys.tables, sys.calls[id], input);
              System(t, sys.calls[id := sys.calls[id].(rollback := rollback)])
          }
    }
  }

  function Run(sys: System, steps: seq<Step>): System
    decreases |steps|
  {
    if steps == [] then sys else Next(Run(sys, steps[..|steps| - 1]), steps[|steps| - 1])
  }

  // -------------------------------------------------------- the two lookups agree

  /** An activation is on record for the operation of the preparation it names. */
  lemma ActivationFacts(t: Tables, r: Receipt)
    requires Inv(t) && r in t.receipts && r.Activation?
    ensures r.scope in t.scopes && LedgerOk(t, r.scope)
    ensures r.prepared in t.prepared
    ensures var record := t.prepared[r.prepared];
            record.scope == r.scope && record.operation == r.operation && record.request == r.request
  {
    hide ActionsOk, LedgerOk;
    assert ScopeOk(t, r.scope);
    AtItsGeneration(t, r);
  }

  /** A rollback names an activation on record, of the same operation. */
  lemma SourceOf(t: Tables, r: Receipt) returns (source: Receipt)
    requires Inv(t) && r in t.receipts && r.Rollback?
    ensures r.scope in t.scopes && LedgerOk(t, r.scope)
    ensures source in t.receipts && source.Activation? && source.id == r.source
    ensures source.scope == r.scope && source.operation == r.operation
  {
    hide ActionsOk, LedgerOk;
    assert ScopeOk(t, r.scope);
    AtItsGeneration(t, r);
    var ledger := Ledger(t.receipts, r.scope);
    source := ledger[r.before - 1];
    assert source in ledger;
  }

  /** Two activations made from one preparation are the same receipt. */
  lemma ActivationPerPrepared(t: Tables, r1: Receipt, r2: Receipt)
    requires Inv(t) && r1 in t.receipts && r2 in t.receipts
    requires r1.Activation? && r2.Activation? && r1.prepared == r2.prepared
    ensures r1 == r2
  {
    hide Inv, LedgerOk;
    ActivationFacts(t, r1);
    ActivationFacts(t, r2);
    ActivationUnique(t, r1, r2);
  }

  /** Two rollbacks of one activation are the same receipt. */
  lemma RollbackPerSource(t: Tables, r1: Receipt, r2: Receipt)
    requires Inv(t) && r1 in t.receipts && r2 in t.receipts
    requires r1.Rollback? && r2.Rollback? && r1.scope == r2.scope && r1.source == r2.source
    ensures r1 == r2
  {
    hide KeysOk, ScopeOk, LedgerOk;
    var source1 := SourceOf(t, r1);
    var source2 := SourceOf(t, r2);
    SameIdSameReceipt(t, source1, source2);
    RollbackUnique(t, r1, r2);
  }

  lemma SameIdSameReceipt(t: Tables, r1: Receipt, r2: Receipt)
    requires KeysOk(t) && r1 in t.receipts && r2 in t.receipts && r1.id == r2.id
    ensures r1 == r2
  {
  }

  /**
   The lookup by prepared id outside the transaction finds a receipt exactly when the lookup
   by operation inside it finds one for that preparation, and then it is the same one.
   */
  lemma ActivationLookupsAgree(t: Tables, s: ScopeId, preparedId: string, r: Receipt)
    requires Inv(t) && LoadPrepared(t, s, preparedId).Some?
    ensures Find(t.receipts, ActivationByPrepared(s, preparedId)) == Some(r)
       <==> Find(t.receipts, ActivationByOperation(s, LoadPrepared(t, s, preparedId).value.operation)) == Some(r)
            && r.prepared == preparedId
  {
    hide Inv, LedgerOk, Find;
    var record := LoadPrepared(t, s, preparedId).value;
    var outside := Find(t.receipts, ActivationByPrepared(s, preparedId));
    var inside := Find(t.receipts, ActivationByOperation(s, record.operation));
    if outside.Some? {
      ActivationFacts(t, outside.value);
      assert inside.Some?;
      ActivationUnique(t, outside.value, inside.value);
    }
  }

  /** The lookup of a rollback by its source receipt and the one by the source's operation give the same answer. */
  lemma RollbackLookupsAgree(t: Tables, s: ScopeId, source: Receipt)
    requires Inv(t) && source in t.receipts && source.scope == s && source.Activation?
    ensures Find(t.receipts, RollbackBySource(s, source.id))
            == Find(t.receipts, RollbackByOperation(s, source.operation))
  {
    hide KeysOk, ScopeOk, LedgerOk, Find;
    var outside := Find(t.receipts, RollbackBySource(s, source.id));
    var inside := Find(t.receipts, RollbackByOperation(s, source.operation));
    if inside.Some? {
      var _ := SourceOf(t, inside.value);
      RollbackFollowsSource(t, inside.value, source);
      assert outside.Some?;
      RollbackPerSource(t, inside.value, outside.value);
    } else if outside.Some? {
      var source' := SourceOf(t, outside.value);
      SameIdSameReceipt(t, source', source);
    }
  }

  // ------------------------------------------------------------- every interleaving

  ghost predicate CallOk(t: Tables, call: Call) {
    match call {
      case Activating(scope, prepared, _, CommitActivation(record, _)) =>
        LoadPrepared(t, scope, prepared) == Some(record)
      case Activating(scope, prepared, _, Activated(r)) =>
        r in t.receipts && r.Activation? && r.scope == scope && r.prepared == prepared
      case RollingBack(scope, source, _, CommitRollback(r)) =>
        r in t.receipts && r.Activation? && r.scope == scope && r.id == source
      case RollingBack(scope, source, _, RolledBack(r)) =>
        r in t.receipts && r.Rollback? && r.scope == scope && r.source == source
      case _ => true
    }
  }

  ghost predicate SystemOk(sys: System) {
    Inv(sys.tables) && forall id | id in sys.calls :: CallOk(sys.tables, sys.calls[id])
  }

  lemma CallKept(t: Tables, t': Tables, call: Call)
    requires Grows(t, t') && CallOk(t, call)
    ensures CallOk(t', call)
  {
  }

  /** A returned activation is on record, for the preparation that was asked for. */
  lemma ActivateReturns(t: Tables, s: ScopeId, preparedId: string, ticket: Ticket, approval: Digest,
                        authorized: bool, receiptId: string, now: Instant, t': Tables, r: Receipt)
    requires ActivatePrepared(t, s, preparedId, ticket, approval, authorized, receiptId, now) == Done(t', r)
    ensures r in t'.receipts && r.Activation? && r.scope == s && r.prepared == preparedId
  {
    hide RowConsistent, TicketFor;
  }

  /** A returned rollback is on record, for the activation that was asked for. */
  lemma RollbackReturns(t: Tables, s: ScopeId, sourceId: string, ticket: Ticket,
                        authorized: bool, receiptId: string, now: Instant, t': Tables, r: Receipt)
    requires Inv(t) && RollbackReceipt(t, s, sourceId, ticket, authorized, receiptId, now) == Done(t', r)
    ensures r in t'.receipts && r.Rollback? && r.scope == s && r.source == sourceId
  {
    hide RowConsistent, TicketFor, Inv, LedgerOk, Find;
    if t' == t {
      var _ := SourceOf(t, r);
      RollbackFollowsSource(t, r, Find(t.receipts, ById(s, sourceId)).value);
    }
  }

  lemma ActivateAdvances(t: Tables, call: Call, input: Input)
    requires Inv(t) && call.Activating? && CallOk(t, call)
    ensures var (t', activation) := AdvanceActivate(t, call, input);
            Inv(t') && Grows(t, t') && CallOk(t', call.(activation := activation))
  {
    hide Inv, RowConsistent, ActivatePrepared;
    if call.activation.CommitActivation? {
      var gate := LoadPrepared(t, call.scope, call.prepared) == Some(call.activation.record) && input.accepted;
      var approval := call.activation.approval;
      var outcome := ActivatePrepared(t, call.scope, call.prepared, call.ticket, approval, gate, input.receiptId,
                                      input.now);
      ActivateKeeps(t, call.scope, call.prepared, call.ticket, approval, gate, input.receiptId, input.now);
      if outcome.Done? {
        ActivateReturns(t, call.scope, call.prepared, call.ticket, approval, gate, input.receiptId, input.now,
                        outcome.tables, outcome.value);
      }
    }
  }

  lemma RollbackAdvances(t: Tables, call: Call, input: Input)
    requires Inv(t) && call.RollingBack? && CallOk(t, call)
    ensures var (t', rollback) := AdvanceRollback(t, call, input);
            Inv(t') && Grows(t, t') && CallOk(t', call.(rollback := rollback))
  {
    hide Inv, RowConsistent, RollbackReceipt;
    if call.rollback.CommitRollback? {
      var gate := Find(t.receipts, ById(call.scope, call.source)) == Some(call.rollback.receipt) && input.accepted;
      var outcome := RollbackReceipt(t, call.scope, call.source, call.ticket, gate, input.receiptId, input.now);
      RollbackKeeps(t, call.scope, call.source, call.ticket, gate, input.receiptId, input.now);
      if outcome.Done? {
        RollbackReturns(t, call.scope, call.source, call.ticket, gate, input.receiptId, input.now,
                        outcome.tables, outcome.value);
      }
    }
  }

  lemma NextKeeps(sys: System, step: Step)
    requires SystemOk(sys)
    ensures SystemOk(Next(sys, step))
  {
    hide Inv, Grows, CallOk, AdvanceActivate, AdvanceRollback, Apply;
    var sys' := Next(sys, step);
    match step {
      case Transaction(event) => ApplyKeeps(sys.tables, event);
      case StartActivate(id, scope, prepared, ticket) => FreshCallsOk(sys.tables, scope, prepared, ticket);
      case StartRollback(id, scope, source, ticket) => FreshCallsOk(sys.tables, scope, source, ticket);
      case Advance(id, input) =>
        if id in sys.calls {
          if sys.calls[id].Activating? {
            ActivateAdvances(sys.tables, sys.calls[id], input);
          } else {
            RollbackAdvances(sys.tables, sys.calls[id], input);
          }
        }
    }
    if sys'.tables != sys.tables {
      forall id | id in sys.calls ensures CallOk(sys'.tables, sys.calls[id]) {
        CallKept(sys.tables, sys'.tables, sys.calls[id]);
      }
    }
  }

  lemma FreshCallsOk(t: Tables, scope: ScopeId, id: string, ticket: Ticket)
    ensures CallOk(t, Activating(scope, id, ticket, FindActivation))
    ensures CallOk(t, RollingBack(scope, id, ticket, FindRollback))
  {
  }

  lemma {:induction false} RunKeeps(steps: seq<Step>)
    ensures SystemOk(Run(START, steps))
    decreases |steps|
  {
    if steps == [] {
    } else {
      RunKeeps(steps[..|steps| - 1]);
      NextKeeps(Run(START, steps[..|steps| - 1]), steps[|steps| - 1]);
    }
  }

  predicate MadeFrom(r: Receipt, prepared: string) {
    r.Activation? && r.prepared == prepared
  }

  /**
   For every interleaving of any number of controllers, all `activate` calls for one prepared
   id that return give the same receipt, and the pointer moves for that id exactly once.
   */
  lemma ActivationsAgree(steps: seq<Step>, a: nat, b: nat)
    requires var calls := Run(START, steps).calls;
             && a in calls && b in calls
             && calls[a].Activating? && calls[b].Activating?
             && calls[a].activation.Activated? && calls[b].activation.Activated?
             && calls[a].prepared == calls[b].prepared
    ensures var sys := Run(START, steps);
            var r := sys.calls[a].activation.receipt;
            && sys.calls[b].activation.receipt == r
            && r in sys.tables.receipts && MadeFrom(r, sys.calls[a].prepared)
            && forall i, j | 0 <= i < |sys.tables.receipts| && 0 <= j < |sys.tables.receipts|
                         && MadeFrom(sys.tables.receipts[i], sys.calls[a].prepared)
                         && MadeFrom(sys.tables.receipts[j], sys.calls[a].prepared) :: i == j
  {
    RunKeeps(steps);
    var sys := Run(START, steps);
    var r := sys.calls[a].activation.receipt;
    assert CallOk(sys.tables, sys.calls[a]) && CallOk(sys.tables, sys.calls[b]);
    hide Run, ScopeOk;
    forall r' | r' in sys.tables.receipts && MadeFrom(r', r.prepared) ensures r' == r {
      ActivationPerPrepared(sys.tables, r, r');
    }
  }

  predicate UndoOf(r: Receipt, scope: ScopeId, source: string) {
    r.Rollback? && r.scope == scope && r.source == source
  }

  /**
   Likewise all `rollback` calls for one activation receipt that return give the same rollback
   receipt, and the pointer moves back for that activation exactly once.
   */
  lemma RollbacksAgree(steps: seq<Step>, a: nat, b: nat)
    requires var calls := Run(START, steps).calls;
             && a in calls && b in calls
             && calls[a].RollingBack? && calls[b].RollingBack?
             && calls[a].rollback.RolledBack? && calls[b].rollback.RolledBack?
             && calls[a].source == calls[b].source && calls[a].scope == calls[b].scope
    ensures var sys := Run(START, steps);
            var call := sys.calls[a];
            var r := call.rollback.undo;
            && sys.calls[b].rollback.undo == r
            && r in sys.tables.receipts && UndoOf(r, call.scope, call.source)
            && forall i, j | 0 <= i < |sys.tables.receipts| && 0 <= j < |sys.tables.receipts|
                         && UndoOf(sys.tables.receipts[i], call.scope, call.source)
                         && UndoOf(sys.tables.receipts[j], call.scope, call.source) :: i == j
  {
    RunKeeps(steps);
    var sys := Run(START, steps);
    var r := sys.calls[a].rollback.undo;
    assert CallOk(sys.tables, sys.calls[a]) && CallOk(sys.tables, sys.calls[b]);
    hide Run, ScopeOk;
    forall r' | r' in sys.tables.receipts && UndoOf(r', r.scope, r.source) ensures r' == r {
      RollbackPerSource(sys.tables, r, r');
    }
  }

  /**
   Once a preparation has been activated, and even after that activation was rolled back, an
   `activate` call that has just started returns the recorded receipt.
   */
  lemma ActivationFoundAgain(t: Tables, call: Call, input: Input, r: Receipt)
    requires Inv(t) && call.Activating? && call.activation.FindActivation?
    requires r in t.receipts && MadeFrom(r, call.prepared) && r.scope == call.scope
    ensures AdvanceActivate(t, call, input) == (t, Activated(r))
  {
    hide Inv;
    ActivationPerPrepared(t, r, Find(t.receipts, ActivationByPrepared(call.scope, call.prepared)).value);
  }

  /**
   So does a call that lost the race and finds the receipt only inside its transaction, whatever
   its ticket or gate.
   */
  lemma ActivationReplayedInside(t: Tables, s: ScopeId, preparedId: string, ticket: Ticket, approval: Digest,
                                 authorized: bool, receiptId: string, now: Instant, r: Receipt)
    requires Inv(t) && "sha256:" <= approval
    requires LoadPrepared(t, s, preparedId).Some?
    requires r in t.receipts && MadeFrom(r, preparedId) && r.scope == s
    ensures ActivatePrepared(t, s, preparedId, ticket, approval, authorized, receiptId, now) == Done(t, r)
  {
    hide RowConsistent, TicketFor, Commit, Inv, LedgerOk, Find, RowError;
    RowReadable(t, s);
    ActivationFacts(t, r);
    ActivationUnique(t, r, Find(t.receipts, ActivationByOperation(s, r.operation)).value);
  }

  /** Once an activation has been rolled back, a `rollback` call that has just started returns the recorded receipt. */
  lemma RollbackFoundAgain(t: Tables, call: Call, input: Input, r: Receipt)
    requires Inv(t) && call.RollingBack? && call.rollback.FindRollback?
    requires r in t.receipts && UndoOf(r, call.scope, call.source)
    ensures AdvanceRollback(t, call, input) == (t, RolledBack(r))
  {
    hide Inv, Find;
    RollbackPerSource(t, r, Find(t.receipts, RollbackBySource(call.scope, call.source)).value);
  }

  /** So does a call that finds the rollback only inside its transaction, whatever its ticket or gate. */
  lemma RollbackReplayedInside(t: Tables, s: ScopeId, sourceId: string, ticket: Ticket,
                               authorized: bool, receiptId: string, now: Instant, r: Receipt)
    requires Inv(t) && r in t.receipts && UndoOf(r, s, sourceId)
    ensures RollbackReceipt(t, s, sourceId, ticket, authorized, receiptId, now) == Done(t, r)
  {
    hide RowConsistent, TicketFor, Commit, KeysOk, ScopeOk, LedgerOk, Find, RowError;
    var source := SourceOf(t, r);
    RowReadable(t, s);
    var found := Find(t.receipts, ById(s, sourceId)).value;
    SameIdSameReceipt(t, found, source);
    var existing := Find(t.receipts, RollbackByOperation(s, source.operation)).value;
    RollbackUnique(t, r, existing);
  }

  lemma RowReadable(t: Tables, s: ScopeId)
    requires Inv(t)
    ensures s in t.scopes ==> RowError(t, s) == None
  {
    hide ActionsOk, LedgerOk;
    if s in t.scopes {
      assert ScopeOk(t, s);
      RowAccepted(t, s);
    }
  }
}
