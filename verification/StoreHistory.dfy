/**
 What the guards of single transactions add up to over every run: what moves an action on, what
 an operation's lease and outcome are good for, and where every stored row comes from.
 */
module StoreHistory {
  import opened Common
  import opened RuntimeModels
  import opened StoreSpec
  import opened StoreInvariant
  import opened StoreRuns
  import opened StoreGuards

  // --------------------------------------------------------------- how an action moves on

  /** The scope's row and its action are the same in both. */
  ghost predicate SameAction(t: Tables, t': Tables, s: ScopeId, key: ActionKey) {
    && s in t.scopes && s in t'.scopes && t'.scopes[s] == t.scopes[s]
    && key in t.actions && key in t'.actions && t'.actions[key] == t.actions[key]
  }

  /** The event ends the action whose key and epoch these are. */
  predicate Ends(e: Event, key: ActionKey, epoch: nat) {
    && e.EndEvent? && e.s == key.scope && e.lease.scope == key.scope
    && e.lease.operation == key.operation && e.lease.epoch == epoch
  }

  /** The event presents a proof signed for this very action. */
  predicate Proves(e: Event, key: ActionKey, epoch: nat) {
    && e.ReconcileEvent? && e.s == key.scope
    && ProofFor(e.proof, key.scope, key.operation, epoch)
  }

  /**
   A running action is moved on only by an end with its lease.  It then is uncertain exactly if
   the end says so, and idle otherwise, together with its row, and its outcome is recorded.
   */
  lemma RunningStep(t: Tables, e: Event, key: ActionKey)
    requires Inv(t) && key in t.actions && t.actions[key].state == Running
    ensures var t', s := Apply(t, e), key.scope;
            || SameAction(t, t', s, key)
            || (&& Ends(e, key, t.actions[key].epoch) && s in t.scopes && s in t'.scopes && key in t'.actions
                && t'.scopes[s].state == t'.actions[key].state == (if e.uncertain then Uncertain else Idle)
                && t'.actions[key].outcome == Some(e.outcome))
  {
    hide Inv, Apply, RowConsistent;
    ActionScope(t, key);
    var s := key.scope;
    CurrentAction(t, s, key);
    if e.EndEvent? && e.s == s {
      EndCommits(t, s, e.lease, e.uncertain, e.outcome);
      EndApplied(t, e);
    } else {
      BusyUntouched(t, e, key);
    }
  }

  /** An uncertain action is moved on only by a proof signed for it, and then is idle together with its row. */
  lemma UncertainStep(t: Tables, e: Event, key: ActionKey)
    requires Inv(t) && key in t.actions && t.actions[key].state == Uncertain
    ensures var t', s := Apply(t, e), key.scope;
            if Proves(e, key, t.actions[key].epoch)
            then && s in t'.scopes && key in t'.actions && t'.scopes[s].state == t'.actions[key].state == Idle
                 && t'.actions[key].outcome == t.actions[key].outcome
            else SameAction(t, t', s, key)
  {
    hide Inv, Apply, RowConsistent, ProofFor;
    ActionScope(t, key);
    var s := key.scope;
    CurrentAction(t, s, key);
    if e.ReconcileEvent? && e.s == s {
      ReconcileCommits(t, s, e.proof);
      ProofIsFor(e.proof, s);
      ReconcileApplied(t, e);
      if ActionKey(s, e.proof.operation) in t.actions {
        CurrentAction(t, s, ActionKey(s, e.proof.operation));
      }
    } else if e.EndEvent? && e.s == s {
      EndCommits(t, s, e.lease, e.uncertain, e.outcome);
      EndApplied(t, e);
    } else {
      BusyUntouched(t, e, key);
    }
  }

  lemma ProofIsFor(proof: ReconciliationProof, s: ScopeId)
    ensures forall operation, epoch | ProofFor(proof, s, operation, epoch) ::
              operation == proof.operation && epoch == proof.epoch && ProofFor(proof, s, proof.operation, proof.epoch)
  {
  }

  lemma ActionScope(t: Tables, key: ActionKey)
    requires Inv(t) && key in t.actions
    ensures key.scope in t.scopes && ActionKey(key.scope, key.operation) == key
  {
    hide ScopeOk;
  }

  lemma EndApplied(t: Tables, e: Event)
    requires e.EndEvent?
    ensures Apply(t, e) == After(t, EndAction(t, e.s, e.lease, e.uncertain, e.outcome))
  {
  }

  lemma ReconcileApplied(t: Tables, e: Event)
    requires e.ReconcileEvent?
    ensures Apply(t, e) == After(t, Reconcile(t, e.s, e.proof))
  {
  }

  /** Apart from ends and reconciliations of its scope, no transaction touches an unfinished action. */
  lemma BusyUntouched(t: Tables, e: Event, key: ActionKey)
    requires Inv(t) && key in t.actions && key.scope in t.scopes
    requires !t.actions[key].state.Idle? && t.scopes[key.scope].state == t.actions[key].state
    requires !(e.EndEvent? && e.s == key.scope)
    requires !(e.ReconcileEvent? && e.s == key.scope && t.actions[key].state.Uncertain?)
    ensures SameAction(t, Apply(t, e), key.scope, key)
  {
    hide Inv, RowConsistent, Find, Ledger;
    if e.ActivateEvent? {
      ActivateCommits(t, e);
    } else if e.RollbackEvent? {
      RollbackCommits(t, e);
    }
  }

  /**
   So an uncertain action and its scope stay exactly as they are, whatever transactions follow,
   unless one of them presents a proof signed for that action and epoch.
   */
  lemma {:induction false} UncertainStays(t: Tables, es: seq<Event>, key: ActionKey)
    requires Inv(t) && key in t.actions && t.actions[key].state == Uncertain
    requires forall i | 0 <= i < |es| :: !Proves(es[i], key, t.actions[key].epoch)
    ensures SameAction(t, Exec(t, es), key.scope, key)
    decreases |es|
  {
    hide Inv, Apply, Proves;
    ActionScope(t, key);
    if es == [] {
    } else {
      var before := es[..|es| - 1];
      UncertainStays(t, before, key);
      ExecKeeps(t, before);
      UncertainStep(Exec(t, before), es[|es| - 1], key);
    }
  }

  /** Likewise a running action stays as it is until an end presents its lease. */
  lemma {:induction false} RunningStays(t: Tables, es: seq<Event>, key: ActionKey)
    requires Inv(t) && key in t.actions && t.actions[key].state == Running
    requires forall i | 0 <= i < |es| :: !Ends(es[i], key, t.actions[key].epoch)
    ensures SameAction(t, Exec(t, es), key.scope, key)
    decreases |es|
  {
    hide Inv, Apply, Ends;
    ActionScope(t, key);
    if es == [] {
    } else {
      var before := es[..|es| - 1];
      RunningStays(t, before, key);
      ExecKeeps(t, before);
      RunningStep(Exec(t, before), es[|es| - 1], key);
    }
  }

  /**
   The lease of a begun action ends it: whatever transactions come between, as long as none of
   them ends it, the end succeeds and leaves it idle or uncertain with its outcome.
   */
  lemma LeaseEnds(t: Tables, s: ScopeId, operation: OperationId, request: Digest, t': Tables, lease: Lease,
                  es: seq<Event>, uncertain: bool, outcome: seq<bv8>)
    requires Inv(t) && BeginAction(t, s, operation, request) == Done(t', lease) && !lease.replayed
    requires forall i | 0 <= i < |es| :: !Ends(es[i], ActionKey(s, operation), lease.epoch)
    ensures var r := EndAction(Exec(t', es), s, lease, uncertain, outcome);
            && r.Done?
            && s in r.tables.scopes && ActionKey(s, operation) in r.tables.actions
            && r.tables.scopes[s].state == (if uncertain then Uncertain else Idle)
            && r.tables.actions[ActionKey(s, operation)]
               == ActionRow(request, lease.epoch, if uncertain then Uncertain else Idle, Some(outcome))
  {
    hide Inv, Apply, Exec, BeginAction, EndAction, Ends;
    BeginCommits(t, s, operation, request);
    BeginApplied(t, s, operation, request);
    ApplyKeeps(t, BeginEvent(s, operation, request));
    RunningStays(t', es, ActionKey(s, operation));
    ExecKeeps(t', es);
    EndCommits(Exec(t', es), s, lease, uncertain, outcome);
  }

  lemma BeginApplied(t: Tables, s: ScopeId, operation: OperationId, request: Digest)
    ensures Apply(t, BeginEvent(s, operation, request)) == After(t, BeginAction(t, s, operation, request))
  {
  }

  // --------------------------------------------------------------------- recorded outcomes

  /** An action that is not running keeps its request, epoch and outcome in every transaction. */
  lemma OutcomeStep(t: Tables, e: Event, key: ActionKey)
    requires Inv(t) && key in t.actions && t.actions[key].state != Running
    ensures var t' := Apply(t, e);
            && key in t'.actions && t'.actions[key].state != Running
            && t'.actions[key].request == t.actions[key].request
            && t'.actions[key].epoch == t.actions[key].epoch
            && t'.actions[key].outcome == t.actions[key].outcome
  {
    hide Inv, RowConsistent, Find, Ledger;
    ActionScope(t, key);
    if e.EndEvent? {
      EndCommits(t, e.s, e.lease, e.uncertain, e.outcome);
      if e.s in t.scopes && t.scopes[e.s].state.Running? {
        RunningAction(t, e.s);
      }
    } else if e.BeginEvent? {
      BeginCommits(t, e.s, e.operation, e.request);
    } else if e.ReconcileEvent? {
      ReconcileCommits(t, e.s, e.proof);
    }
  }

  lemma {:induction false} OutcomeStays(t: Tables, es: seq<Event>, key: ActionKey)
    requires Inv(t) && key in t.actions && t.actions[key].state != Running
    ensures var t' := Exec(t, es);
            && key in t'.actions
            && t'.actions[key].state != Running
            && t'.actions[key].request == t.actions[key].request
            && t'.actions[key].epoch == t.actions[key].epoch
            && t'.actions[key].outcome == t.actions[key].outcome
    decreases |es|
  {
    hide Inv, Apply;
    if es == [] {
    } else {
      var before := es[..|es| - 1];
      OutcomeStays(t, before, key);
      ExecKeeps(t, before);
      OutcomeStep(Exec(t, before), es[|es| - 1], key);
    }
  }

  /**
   An operation is carried out once: after its action has ended with an outcome, every later call
   for it in an idle scope returns that outcome, for the same request, and changes nothing; for
   another request it is refused as a conflict, busy scope or not.
   */
  lemma OutcomeReplayed(t: Tables, s: ScopeId, lease: Lease, uncertain: bool, outcome: seq<bv8>, t': Tables,
                        es: seq<Event>, request: Digest)
    requires Inv(t) && EndAction(t, s, lease, uncertain, outcome) == Done(t', ())
    ensures var later := Exec(t', es);
            && s in later.scopes
            && (request != lease.request ==> BeginAction(later, s, lease.operation, request) == Failed(ReplayConflict))
            && (request == lease.request && later.scopes[s].state == Idle ==>
                  BeginAction(later, s, lease.operation, request)
                  == Done(later, Lease(s, lease.operation, request, lease.epoch, Idle, true, Some(outcome))))
  {
    hide Inv, Apply, Exec, EndAction, RowError;
    var key := ActionKey(s, lease.operation);
    EndCommits(t, s, lease, uncertain, outcome);
    NamedAction(t, key);
    EndApplied(t, EndEvent(s, lease, uncertain, outcome));
    ApplyKeeps(t, EndEvent(s, lease, uncertain, outcome));
    OutcomeStays(t', es, key);
    ExecKeeps(t', es);
    ActionScope(Exec(t', es), key);
    Readable(Exec(t', es), s);
    BeginCommits(Exec(t', es), s, lease.operation, request);
  }

  // ---------------------------------------------------------------- where rows come from

  /** The transaction commits this very receipt, past every guard. */
  ghost predicate Grounds(t: Tables, e: Event, r: Receipt) {
    if r.Activation? then e.ActivateEvent? && Activates(t, e) && r == ActivationOf(t, e)
    else e.RollbackEvent? && exists source :: RollsBack(t, e, source) && r == RollbackOf(t, e, source)
  }

  /** It was committed by the transaction at this point of the run. */
  ghost predicate CommittedAt(es: seq<Event>, i: nat, r: Receipt) {
    i < |es| && Grounds(Exec(EMPTY, es[..i]), es[i], r)
  }

  lemma ReceiptStep(t: Tables, e: Event, r: Receipt)
    requires Inv(t) && r in Apply(t, e).receipts && r !in t.receipts
    ensures Grounds(t, e, r)
  {
    hide Inv, RowConsistent, Find, Ledger, ActivatePrepared, RollbackReceipt, Activates, RollsBack;
    if e.ActivateEvent? {
      ActivateCommits(t, e);
      hide Apply;
    } else if e.RollbackEvent? {
      RollbackCommits(t, e);
      hide Apply;
      var source :| RollsBack(t, e, source);
    }
  }

  /**
   Every receipt of every run was committed by one transaction of it that passed every guard: an
   authorised activation within the lifetimes of its preparation and ticket, carrying its
   approval, or an authorised rollback within the lifetime of its ticket.
   */
  lemma {:induction false} ReceiptsHaveGrounds(es: seq<Event>, r: Receipt) returns (i: nat)
    requires r in Exec(EMPTY, es).receipts
    ensures CommittedAt(es, i, r)
    decreases |es|
  {
    hide Inv, Apply, Grounds;
    var before := es[..|es| - 1];
    var t := Exec(EMPTY, before);
    ReachableOk(before);
    if r in t.receipts {
      i := ReceiptsHaveGrounds(before, r);
      assert before[..i] == es[..i];
    } else {
      i := |es| - 1;
      ReceiptStep(t, es[i], r);
    }
  }

  /** What that comes to: whoever moved the pointer was authorised, in time and held a pending ticket. */
  lemma MovesAreAuthorised(es: seq<Event>, r: Receipt) returns (i: nat)
    requires r in Exec(EMPTY, es).receipts
    ensures i < |es|
    ensures var t, e := Exec(EMPTY, es[..i]), es[i];
            && (r.Activation? ==>
                  && e.ActivateEvent? && e.authorized && e.approval == r.approval
                  && e.prepared == r.prepared && r.prepared in t.prepared && e.now < t.prepared[r.prepared].expiresAt
                  && e.ticket.id == r.ticket && e.now < e.ticket.expiresAt)
            && (r.Rollback? ==>
                  && e.RollbackEvent? && e.authorized && e.source == r.source
                  && e.ticket.id == r.ticket && e.now < e.ticket.expiresAt)
            && r.ticket in t.tickets && !t.tickets[r.ticket].consumed
            && r.scope in t.scopes && t.scopes[r.scope].state == Idle && t.scopes[r.scope].generation == r.before
  {
    hide Inv, Apply, Exec;
    i := ReceiptsHaveGrounds(es, r);
    ReachableOk(es);
    ReachableOk(es[..i]);
    WellFormedMove(Exec(EMPTY, es), r);
    var t, e := Exec(EMPTY, es[..i]), es[i];
    if r.Rollback? {
      assert exists source :: RollsBack(t, e, source) && r == RollbackOf(t, e, source);
    }
  }

  /** The ticket was reserved by the transaction at this point of the run. */
  ghost predicate ReservedAt(es: seq<Event>, i: nat, ticket: Ticket) {
    && i < |es|
    && var t, e := Exec(EMPTY, es[..i]), es[i];
    && e.ReserveEvent? && e.s == ticket.scope && e.operation == ticket.operation && e.id == ticket.id
    && 0 < e.lifetime <= 600_000_000 && ticket.expiresAt == e.now + e.lifetime
    && JustFinished(t, e.s, e.operation)
    && t.scopes[e.s].generation == ticket.expectedGeneration == e.expected
    && t.scopes[e.s].epoch == ticket.epoch
    && ticket.signature == TicketMac(ticket.id, ticket.scope, ticket.expectedGeneration, ticket.epoch,
                                     ticket.operation, ticket.expiresAt)
  }

  lemma TicketStep(t: Tables, e: Event, id: string)
    requires Inv(t) && id in Apply(t, e).tickets
    ensures id in t.tickets ==> Apply(t, e).tickets[id].ticket == t.tickets[id].ticket
    ensures id !in t.tickets ==>
              && e.ReserveEvent? && e.id == id && JustFinished(t, e.s, e.operation)
              && t.scopes[e.s].generation == e.expected && 0 < e.lifetime <= 600_000_000
              && var expires, epoch := e.now + e.lifetime, t.scopes[e.s].epoch;
                 Apply(t, e).tickets[id].ticket
                 == Ticket(id, e.s, e.expected, epoch, e.operation, expires,
                           TicketMac(id, e.s, e.expected, epoch, e.operation, expires))
  {
    hide Inv, RowConsistent, Find, Ledger, ActivatePrepared, RollbackReceipt;
    if e.ReserveEvent? {
      ReserveCommits(t, e.s, e.operation, e.expected, e.lifetime, e.id, e.now);
    } else if e.ConsumeEvent? {
      ConsumeCommits(t, e.s, e.ticket, e.now);
    } else if e.ActivateEvent? {
      ActivateCommits(t, e);
    } else if e.RollbackEvent? {
      RollbackCommits(t, e);
    }
  }

  /**
   Every ticket of every run was reserved, with a lifetime of at most ten minutes, for the
   operation just finished and at the generation and epoch the scope then had.
   */
  lemma {:induction false} TicketsAreReserved(es: seq<Event>, id: string) returns (i: nat)
    requires id in Exec(EMPTY, es).tickets
    ensures ReservedAt(es, i, Exec(EMPTY, es).tickets[id].ticket)
    decreases |es|
  {
    hide Inv, Apply, JustFinished;
    var before := es[..|es| - 1];
    ReachableOk(before);
    TicketStep(Exec(EMPTY, before), es[|es| - 1], id);
    if id in Exec(EMPTY, before).tickets {
      i := TicketsAreReserved(before, id);
      assert before[..i] == es[..i];
    } else {
      i := |es| - 1;
    }
  }

  /** Every preparation of every run was saved by a transaction of it, exactly as it is stored. */
  lemma {:induction false} PreparationsAreSaved(es: seq<Event>, id: string) returns (i: nat)
    requires id in Exec(EMPTY, es).prepared
    ensures i < |es| && es[i] == PrepareEvent(Exec(EMPTY, es).prepared[id])
    ensures id !in Exec(EMPTY, es[..i]).prepared
    decreases |es|
  {
    hide Inv, Apply;
    var before := es[..|es| - 1];
    ReachableOk(before);
    PreparationStep(Exec(EMPTY, before), es[|es| - 1], id);
    if id in Exec(EMPTY, before).prepared {
      i := PreparationsAreSaved(before, id);
      assert before[..i] == es[..i];
    } else {
      i := |es| - 1;
    }
  }

  lemma PreparationStep(t: Tables, e: Event, id: string)
    requires Inv(t) && id in Apply(t, e).prepared
    ensures if id in t.prepared then Apply(t, e).prepared[id] == t.prepared[id]
            else e == PrepareEvent(Apply(t, e).prepared[id])
  {
    hide Inv, RowConsistent, Find, Ledger;
  }

  /** Every scope of every run was created by a validated bootstrap proof signed for it and its first binding. */
  lemma {:induction false} ScopesAreProved(es: seq<Event>, s: ScopeId) returns (i: nat)
    requires s in Exec(EMPTY, es).scopes
    ensures i < |es| && es[i].InitializeEvent? && es[i].s == s && es[i].valid
    ensures var e := es[i];
            && e.binding.generation == 0 && e.bootstrap.scope == s && e.bootstrap.binding == e.binding
            && e.bootstrap.signature == BootstrapMac(s, e.binding, e.bootstrap.issuedAt)
            && BootstrapOf(es, s) == Some(e.binding)
    decreases |es|
  {
    hide Inv, Apply, Initialize;
    var before := es[..|es| - 1];
    var e := es[|es| - 1];
    ReachableOk(before);
    GaplessLedger(before, s);
    if s in Exec(EMPTY, before).scopes {
      i := ScopesAreProved(before, s);
    } else {
      i := |es| - 1;
      BootstrapStep(Exec(EMPTY, before), e, s);
      InitializeCommits(Exec(EMPTY, before), s, e.binding, e.bootstrap, e.valid);
    }
  }

  // ---------------------------------------------------------------------------- refusals

  /** How the store says why: what is in the way of a begin, a reservation or a pointer move. */
  lemma Refusals(t: Tables, s: ScopeId, operation: OperationId, request: Digest)
    requires Inv(t) && operation != ""
    ensures s !in t.scopes ==> BeginAction(t, s, operation, request) == Failed(NotInitialized)
    ensures && s in t.scopes && ActionKey(s, operation) in t.actions
            && t.actions[ActionKey(s, operation)].request != request
            ==> BeginAction(t, s, operation, request) == Failed(ReplayConflict)
    ensures s in t.scopes && (ActionKey(s, operation) in t.actions ==>
                                t.actions[ActionKey(s, operation)].request == request) ==>
              && (t.scopes[s].state == Running && t.scopes[s].current == Some(operation) ==>
                    BeginAction(t, s, operation, request) == Failed(ActionInProgress))
              && (t.scopes[s].state == Running && ActionKey(s, operation) !in t.actions ==>
                    BeginAction(t, s, operation, request) == Failed(ActionInProgress))
              && (t.scopes[s].state == Uncertain ==>
                    BeginAction(t, s, operation, request) == Failed(UncertainState))
    ensures forall expected, lifetime, id, now | s in t.scopes && 0 < lifetime <= 600_000_000 ::
              var r := ReserveBoundary(t, s, operation, expected, lifetime, id, now);
              && (t.scopes[s].state == Uncertain ==> r == Failed(UncertainState))
              && (t.scopes[s].state == Running ==> r == Failed(ActionInProgress))
              && (t.scopes[s].state == Idle && t.scopes[s].generation != expected ==> r == Failed(GenerationMismatch))
  {
    hide Inv, RowError, RowConsistent;
    Readable(t, s);
    var key := ActionKey(s, operation);
    if s in t.scopes && key in t.actions {
      CurrentAction(t, s, key);
    }
    if s in t.scopes && t.scopes[s].state.Running? {
      RunningAction(t, s);
    }
  }

  /**
   An activation asked for under another preparation of an operation that was activated is a
   replay conflict; a rollback of an activation the pointer has left, not rolled back, is a
   generation mismatch.
   */
  lemma MoveRefusals(t: Tables, r: Receipt, ticket: Ticket, approval: Digest, authorized: bool, id: string,
                     now: Instant, preparedId: string)
    requires Inv(t) && r in t.receipts && r.Activation? && "sha256:" <= approval
    ensures preparedId in t.prepared && t.prepared[preparedId].scope == r.scope && t.prepared[preparedId].WellFormed()
            && t.prepared[preparedId].operation == r.operation && preparedId != r.prepared ==>
              ActivatePrepared(t, r.scope, preparedId, ticket, approval, authorized, id, now) == Failed(ReplayConflict)
    ensures r.scope in t.scopes
    ensures t.scopes[r.scope].active != r.newBinding && !HasMove(t, r.scope, r.operation, false) ==>
              RollbackReceipt(t, r.scope, r.id, ticket, authorized, id, now) == Failed(GenerationMismatch)
  {
    hide Inv, RowError, RowConsistent, TicketFor, Commit, Find, LedgerOk;
    KnownScope(t, r);
    Readable(t, r.scope);
    StoredUnderId(t, preparedId);
    ScopeLedger(t, r.scope);
    ActivationUnique(t, r, Find(t.receipts, ActivationByOperation(r.scope, r.operation)).value);
    OneReceiptPerId(t, r, Find(t.receipts, ById(r.scope, r.id)).value);
    assert !HasMove(t, r.scope, r.operation, false) ==>
             Find(t.receipts, RollbackByOperation(r.scope, r.operation)).None?;
  }

  lemma ScopeLedger(t: Tables, s: ScopeId)
    requires Inv(t) && s in t.scopes
    ensures LedgerOk(t, s)
  {
    hide ActionsOk, LedgerOk;
    assert ScopeOk(t, s);
  }
}
