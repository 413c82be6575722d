/**
 Exactly when each transaction of the runtime store commits, in any reachable state, and what
 it then leaves behind.

 A transaction tests its arguments, reads its scope row, and then goes through a cascade of
 refusals.  On tables that satisfy the invariant the row test never refuses, so that each
 cascade comes down to one condition on the rows, stated here field by field.
 */
module StoreGuards {
  import opened Common
  import opened RuntimeModels
  import opened StoreSpec
  import opened StoreInvariant

  lemma Readable(t: Tables, s: ScopeId)
    requires Inv(t)
    ensures RowError(t, s) == if s in t.scopes then None else Some(NotInitialized)
  {
    hide ActionsOk, LedgerOk, RowConsistent;
    if s in t.scopes {
      assert ScopeOk(t, s);
      RowAccepted(t, s);
    }
  }

  /** A preparation is read back exactly as it was stored, under its id and scope, and only if it is well-formed. */
  lemma Loaded(t: Tables, s: ScopeId, id: string, record: Prepared)
    ensures LoadPrepared(t, s, id) == Some(record) <==>
              && id in t.prepared && t.prepared[id] == record && record.id == id && record.scope == s
              && record.newBinding.generation == record.oldBinding.generation + 1
  {
  }

  /** Any two actions of a scope that carry the epoch of its row are the same action. */
  lemma CurrentAction(t: Tables, s: ScopeId, k: ActionKey)
    requires Inv(t) && s in t.scopes && k in t.actions && k.scope == s
    ensures t.actions[k].epoch == t.scopes[s].epoch ==> t.actions[k].state == t.scopes[s].state
    ensures !t.actions[k].state.Idle? ==> t.actions[k].epoch == t.scopes[s].epoch
    ensures t.scopes[s].state.Running? <==> t.scopes[s].current.Some?
    ensures t.actions[k].state.Running? ==> t.scopes[s].current == Some(k.operation)
    ensures forall k' | k' in t.actions && k'.scope == s && t.actions[k'].epoch == t.actions[k].epoch :: k' == k
  {
    hide LedgerOk;
    assert ScopeOk(t, s);
  }

  /** A running scope names its running action. */
  lemma RunningAction(t: Tables, s: ScopeId)
    requires Inv(t) && s in t.scopes && t.scopes[s].state.Running?
    ensures t.scopes[s].current.Some?
    ensures var k := ActionKey(s, t.scopes[s].current.value);
            k in t.actions && t.actions[k].state.Running? && t.actions[k].epoch == t.scopes[s].epoch
  {
    hide LedgerOk;
    assert ScopeOk(t, s);
    assert HasAction(t, s, t.scopes[s].epoch);
  }

  // -------------------------------------------------------------------------- the row test

  /**
   What reading a row tests, on any tables whatever: the stored generations agree, the actions
   that are running are exactly the one the row names, at the row's epoch, and the newest actions
   are in the row's state if they have its epoch.
   */
  lemma RowTest(t: Tables, s: ScopeId)
    requires s in t.scopes
    ensures var row := t.scopes[s];
            RowError(t, s) == None <==>
              && row.active.generation == row.generation
              && (row.state == Running <==> row.current != None)
              && (forall k | k in t.actions && k.scope == s && t.actions[k].state == Running ::
                    row.current == Some(k.operation))
              && (forall o | row.current == Some(o) ::
                    && o != "" && ActionKey(s, o) in t.actions
                    && t.actions[ActionKey(s, o)].state == Running
                    && t.actions[ActionKey(s, o)].epoch == row.epoch)
              && (forall k | k in t.actions && k.scope == s && t.actions[k].epoch == row.epoch
                          && (forall k' | k' in t.actions && k'.scope == s :: t.actions[k'].epoch <= row.epoch) ::
                    t.actions[k].state == row.state)
  {
    var row := t.scopes[s];
    var running := RunningOperations(t, s);
    forall k | k in t.actions && k.scope == s && t.actions[k].state == Running ensures k.operation in running {
    }
    if row.current.Some? {
      var key := ActionKey(s, row.current.value);
      if running == {row.current.value} {
        assert row.current.value in running;
      }
      if && key in t.actions && t.actions[key].state == Running
         && (forall k | k in t.actions && k.scope == s && t.actions[k].state == Running ::
               row.current == Some(k.operation))
      {
        assert row.current.value in running;
        assert running == {row.current.value};
      }
    }
  }

  // ------------------------------------------------------------------- creating a scope

  /** A scope is created exactly by a validated generation-zero binding with a proof signed for this scope and it. */
  lemma InitializeCommits(t: Tables, s: ScopeId, binding: Binding, proof: BootstrapProof, valid: bool)
    ensures var admissible :=
              && s !in t.scopes && valid && binding.generation == 0
              && proof.scope == s && proof.binding == binding
              && proof.signature == BootstrapMac(s, binding, proof.issuedAt);
            if admissible
            then Initialize(t, s, binding, proof, valid)
              == Done(t.(scopes := t.scopes[s := ScopeRow(binding, 0, Idle, 0, None)]), binding)
            else Initialize(t, s, binding, proof, valid) == Failed(Rejected)
  {
  }

  // ---------------------------------------------------------------------------- actions

  /**
   An action begins exactly for a named operation that has none yet, in a scope that is idle; it
   is then running in the next epoch.  An operation that has one is replayed exactly for the same
   request in an idle scope, without any change.
   */
  lemma BeginCommits(t: Tables, s: ScopeId, operation: OperationId, request: Digest)
    requires Inv(t)
    ensures var key := ActionKey(s, operation);
            var outcome := BeginAction(t, s, operation, request);
            && (outcome.Done? <==>
                  && operation != "" && s in t.scopes && t.scopes[s].state == Idle
                  && (key in t.actions ==> t.actions[key].request == request))
            && (outcome.Done? && key in t.actions ==>
                  outcome == Done(t, Lease(s, operation, request, t.actions[key].epoch, Idle, true,
                                           t.actions[key].outcome)))
            && (outcome.Done? && key !in t.actions ==>
                  var row := t.scopes[s];
                  outcome == Done(t.(scopes := t.scopes[s := ScopeRow(row.active, row.generation, Running,
                                                                      row.epoch + 1, Some(operation))],
                                     actions := t.actions[key := ActionRow(request, row.epoch + 1, Running, None)]),
                                  Lease(s, operation, request, row.epoch + 1, Running, false, None)))
  {
    hide Inv, RowError, RowConsistent;
    Readable(t, s);
    var key := ActionKey(s, operation);
    if s in t.scopes && key in t.actions {
      CurrentAction(t, s, key);
    }
  }

  /** The lease is the one of the scope's running action. */
  predicate Current(t: Tables, s: ScopeId, lease: Lease) {
    && s in t.scopes
    && t.scopes[s].state == Running
    && t.scopes[s].current == Some(lease.operation)
    && t.scopes[s].epoch == lease.epoch
    && ActionKey(s, lease.operation) in t.actions
    && t.actions[ActionKey(s, lease.operation)].request == lease.request
    && lease.scope == s && lease.state == Running && !lease.replayed
  }

  /**
   An action ends exactly with the lease of the scope's running action; row and action then move
   together, to uncertain if the end is, else to idle, and the outcome is recorded.
   */
  lemma EndCommits(t: Tables, s: ScopeId, lease: Lease, uncertain: bool, outcome: seq<bv8>)
    requires Inv(t)
    ensures var r := EndAction(t, s, lease, uncertain, outcome);
            && (r.Done? <==> Current(t, s, lease))
            && (r.Done? ==>
                  var row, key := t.scopes[s], ActionKey(s, lease.operation);
                  var target := if uncertain then Uncertain else Idle;
                  r == Done(t.(scopes := t.scopes[s := ScopeRow(row.active, row.generation, target, row.epoch, None)],
                               actions := t.actions[key := ActionRow(lease.request, lease.epoch, target,
                                                                     Some(outcome))]),
                            ()))
  {
    hide Inv, RowError, RowConsistent;
    Readable(t, s);
    if s in t.scopes && t.scopes[s].state.Running? {
      RunningAction(t, s);
    }
  }

  /** The proof is signed for this very action. */
  predicate ProofFor(proof: ReconciliationProof, s: ScopeId, operation: OperationId, epoch: nat) {
    && proof.scope == s && proof.operation == operation && proof.epoch == epoch
    && proof.signature == ReconcileMac(s, operation, epoch, proof.termination, proof.evidence, proof.issuedAt)
  }

  /**
   A scope is reconciled exactly with a proof signed for its uncertain action; row and action
   then become idle together, and the recorded outcome stays.
   */
  lemma ReconcileCommits(t: Tables, s: ScopeId, proof: ReconciliationProof)
    requires Inv(t)
    ensures var r, key := Reconcile(t, s, proof), ActionKey(s, proof.operation);
            && (r.Done? <==>
                  && s in t.scopes && t.scopes[s].state == Uncertain && key in t.actions
                  && t.actions[key].epoch == t.scopes[s].epoch
                  && ProofFor(proof, s, proof.operation, t.scopes[s].epoch))
            && (r.Done? ==>
                  var row, action := t.scopes[s], t.actions[key];
                  r == Done(t.(scopes := t.scopes[s := ScopeRow(row.active, row.generation, Idle, row.epoch, None)],
                               actions := t.actions[key := ActionRow(action.request, action.epoch, Idle,
                                                                     action.outcome)]),
                            ()))
  {
    hide Inv, RowError, RowConsistent;
    Readable(t, s);
    var key := ActionKey(s, proof.operation);
    if s in t.scopes && key in t.actions {
      CurrentAction(t, s, key);
    }
  }

  // ---------------------------------------------------------------------------- tickets

  /** The operation is the one whose finished action carries the scope's epoch. */
  predicate JustFinished(t: Tables, s: ScopeId, operation: OperationId) {
    && s in t.scopes && t.scopes[s].state == Idle
    && ActionKey(s, operation) in t.actions
    && t.actions[ActionKey(s, operation)].epoch == t.scopes[s].epoch
  }

  /**
   A ticket is issued exactly for the operation just finished, at the generation the pointer has,
   for at most ten minutes and under an unused id; it binds all of that and expires when its
   lifetime is over.
   */
  lemma ReserveCommits(t: Tables, s: ScopeId, operation: OperationId, expected: nat, lifetime: int, id: string,
                       now: Instant)
    requires Inv(t)
    ensures var r := ReserveBoundary(t, s, operation, expected, lifetime, id, now);
            && (r.Done? <==>
                  && JustFinished(t, s, operation) && t.scopes[s].generation == expected
                  && 0 < lifetime <= 600_000_000 && id !in t.tickets)
            && (r.Done? ==>
                  var epoch, expires := t.scopes[s].epoch, now + lifetime;
                  var ticket := Ticket(id, s, expected, epoch, operation, expires,
                                       TicketMac(id, s, expected, epoch, operation, expires));
                  r == Done(t.(tickets := t.tickets[id := TicketRow(ticket, false)]), ticket))
  {
    hide Inv, RowError, RowConsistent;
    Readable(t, s);
    var key := ActionKey(s, operation);
    if s in t.scopes && key in t.actions {
      CurrentAction(t, s, key);
      NamedAction(t, key);
    }
  }

  lemma NamedAction(t: Tables, key: ActionKey)
    requires Inv(t) && key in t.actions
    ensures key.operation != ""
  {
    hide ScopeOk;
  }

  /**
   The ticket is the stored one, still pending and not expired, signed for what it says, and the
   scope is where it was when the ticket was issued.
   */
  predicate Spendable(t: Tables, s: ScopeId, ticket: Ticket, now: Instant) {
    && ticket.id in t.tickets && t.tickets[ticket.id].ticket == ticket && !t.tickets[ticket.id].consumed
    && ticket.scope == s
    && ticket.signature == TicketMac(ticket.id, s, ticket.expectedGeneration, ticket.epoch, ticket.operation,
                                     ticket.expiresAt)
    && now < ticket.expiresAt
    && JustFinished(t, s, ticket.operation)
    && t.scopes[s].generation == ticket.expectedGeneration && t.scopes[s].epoch == ticket.epoch
  }

  lemma UsableIsSpendable(t: Tables, s: ScopeId, ticket: Ticket, now: Instant)
    requires Inv(t) && s in t.scopes
    ensures TicketUsable(t, s, ticket, now) <==> Spendable(t, s, ticket, now)
  {
    hide Inv;
    var key := ActionKey(s, ticket.operation);
    if key in t.actions {
      CurrentAction(t, s, key);
    }
  }

  /** A boundary is consumed exactly with a spendable ticket, and nothing but the ticket changes. */
  lemma ConsumeCommits(t: Tables, s: ScopeId, ticket: Ticket, now: Instant)
    requires Inv(t)
    ensures var r := ConsumeBoundary(t, s, ticket, now);
            && (r.Done? <==> Spendable(t, s, ticket, now))
            && (r.Done? ==> r == Done(t.(tickets := t.tickets[ticket.id := TicketRow(ticket, true)]), ticket))
  {
    hide Inv, RowError, RowConsistent, TicketUsable;
    Readable(t, s);
    if s in t.scopes {
      UsableIsSpendable(t, s, ticket, now);
    }
  }

  // ------------------------------------------------------------------------- preparations

  /** A preparation is stored exactly for a known scope under an unused id, as it is. */
  lemma PrepareCommits(t: Tables, record: Prepared)
    requires Inv(t)
    ensures SavePrepared(t, record).Done? <==> record.scope in t.scopes && record.id !in t.prepared
    ensures SavePrepared(t, record).Done? ==>
              SavePrepared(t, record) == Done(t.(prepared := t.prepared[record.id := record]), ())
  {
    hide Inv, RowError, RowConsistent;
    Readable(t, record.scope);
  }

  // ------------------------------------------------------------------------- pointer moves

  /** The scope has a receipt of the kind for the operation. */
  ghost predicate HasMove(t: Tables, s: ScopeId, operation: OperationId, activation: bool) {
    exists r :: r in t.receipts && r.scope == s && r.operation == operation && r.Activation? == activation
  }

  ghost predicate IdFree(t: Tables, id: string) {
    forall r | r in t.receipts :: r.id != id
  }

  /**
   What an activation that has not happened yet needs: an authorising gate, a digest as approval,
   an unexpired preparation of this scope that starts at the active binding and leads one
   generation on, and a spendable ticket for its operation and request.
   */
  ghost predicate Activates(t: Tables, e: Event)
    requires e.ActivateEvent?
  {
    && e.authorized && "sha256:" <= e.approval
    && e.prepared in t.prepared
    && var record := t.prepared[e.prepared];
    && record.scope == e.s && e.now < record.expiresAt
    && record.newBinding.generation == record.oldBinding.generation + 1
    && Spendable(t, e.s, e.ticket, e.now)
    && e.ticket.operation == record.operation
    && t.actions[ActionKey(e.s, record.operation)].request == record.request
    && t.scopes[e.s].active == record.oldBinding
    && !HasMove(t, e.s, record.operation, true)
    && IdFree(t, e.id)
  }

  /** The receipt of such an activation. */
  ghost function ActivationOf(t: Tables, e: Event): Receipt
    requires e.ActivateEvent? && Activates(t, e)
  {
    var record, row := t.prepared[e.prepared], t.scopes[e.s];
    Activation(e.id, e.s, record.operation, e.prepared, e.ticket.id, record.request, record.oldBinding,
               record.newBinding, row.generation, row.generation + 1, e.approval)
  }

  /**
   An activation changes the tables exactly when it is due and every guard lets it through; then
   the pointer holds the prepared binding, the ticket is spent and the receipt is the newest.
   */
  lemma ActivateCommits(t: Tables, e: Event)
    requires Inv(t) && e.ActivateEvent?
    ensures Apply(t, e) != t <==> Activates(t, e)
    ensures Activates(t, e) ==>
              var r := ActivationOf(t, e);
              var row := t.scopes[e.s];
              && ActivatePrepared(t, e.s, e.prepared, e.ticket, e.approval, e.authorized, e.id, e.now)
                 == Done(Apply(t, e), r)
              && Apply(t, e) == t.(scopes := t.scopes[e.s := row.(active := r.newBinding, generation := r.after)],
                                   tickets := t.tickets[e.ticket.id := TicketRow(e.ticket, true)],
                                   receipts := t.receipts + [r])
  {
    hide Inv, RowError, RowConsistent, TicketUsable, Find, ReceiptIdUsed, Spendable;
    Readable(t, e.s);
    if e.s in t.scopes && LoadPrepared(t, e.s, e.prepared).Some? {
      var record := t.prepared[e.prepared];
      UsableIsSpendable(t, e.s, e.ticket, e.now);
      ActiveGeneration(t, e.s);
      assert Find(t.receipts, ActivationByOperation(e.s, record.operation)).None? <==>
             !HasMove(t, e.s, record.operation, true);
      FreeId(t, e.id);
    }
    StoredUnderId(t, e.prepared);
    if Spendable(t, e.s, e.ticket, e.now) {
      SpendableParts(t, e.s, e.ticket, e.now);
    }
    MoveChanges(t);
  }

  lemma SpendableParts(t: Tables, s: ScopeId, ticket: Ticket, now: Instant)
    requires Spendable(t, s, ticket, now)
    ensures s in t.scopes && ActionKey(s, ticket.operation) in t.actions
    ensures ticket.id in t.tickets && t.tickets[ticket.id] == TicketRow(ticket, false)
  {
  }

  lemma MoveChanges(t: Tables)
    ensures forall r: Receipt :: t.receipts + [r] != t.receipts
  {
    forall r: Receipt ensures t.receipts + [r] != t.receipts {
      assert |t.receipts + [r]| == |t.receipts| + 1;
    }
  }

  lemma FreeId(t: Tables, id: string)
    ensures ReceiptIdUsed(t, id) <==> !IdFree(t, id)
  {
  }

  lemma ActiveGeneration(t: Tables, s: ScopeId)
    requires Inv(t) && s in t.scopes
    ensures t.scopes[s].active.generation == t.scopes[s].generation
  {
    hide LedgerOk;
    assert ScopeOk(t, s);
  }

  lemma StoredUnderId(t: Tables, id: string)
    requires Inv(t)
    ensures id in t.prepared ==> t.prepared[id].id == id && t.prepared[id].scope in t.scopes
  {
    hide ScopeOk;
  }

  /**
   What a rollback that has not happened yet needs: an authorising gate, an activation of this
   scope whose binding is the active one, and a spendable ticket for its operation and request.
   */
  ghost predicate RollsBack(t: Tables, e: Event, source: Receipt)
    requires e.RollbackEvent?
  {
    && e.authorized
    && source in t.receipts && source.Activation? && source.scope == e.s && source.id == e.source
    && Spendable(t, e.s, e.ticket, e.now)
    && e.ticket.operation == source.operation
    && t.actions[ActionKey(e.s, source.operation)].request == source.request
    && t.scopes[e.s].active == source.newBinding
    && !HasMove(t, e.s, source.operation, false)
    && IdFree(t, e.id)
  }

  /** The receipt of such a rollback: the earlier capsule, view and input, one generation on. */
  ghost function RollbackOf(t: Tables, e: Event, source: Receipt): Receipt
    requires e.RollbackEvent? && RollsBack(t, e, source)
  {
    var row, old' := t.scopes[e.s], source.oldBinding;
    Rollback(e.id, e.source, e.s, source.operation, e.ticket.id, source.request,
             Binding(old'.capsule, old'.view, old'.input, row.generation + 1), row.generation, row.generation + 1)
  }

  /**
   A rollback changes the tables exactly when it is due and every guard lets it through; then the
   pointer is back at the capsule, view and input from before the activation, one generation on.
   */
  lemma RollbackCommits(t: Tables, e: Event)
    requires Inv(t) && e.RollbackEvent?
    ensures Apply(t, e) != t <==> exists source :: RollsBack(t, e, source)
    ensures forall source | RollsBack(t, e, source) ::
              var r := RollbackOf(t, e, source);
              var row := t.scopes[e.s];
              && RollbackReceipt(t, e.s, e.source, e.ticket, e.authorized, e.id, e.now) == Done(Apply(t, e), r)
              && Apply(t, e) == t.(scopes := t.scopes[e.s := row.(active := r.restored, generation := r.after)],
                                   tickets := t.tickets[e.ticket.id := TicketRow(e.ticket, true)],
                                   receipts := t.receipts + [r])
  {
    hide Inv, RowError, RowConsistent, TicketUsable, Find, ReceiptIdUsed, Spendable;
    Readable(t, e.s);
    MoveChanges(t);
    FreeId(t, e.id);
    var found := Find(t.receipts, ById(e.s, e.source));
    if e.s in t.scopes && found.Some? && found.value.Activation? {
      UsableIsSpendable(t, e.s, e.ticket, e.now);
      ActiveGeneration(t, e.s);
      WellFormedMove(t, found.value);
      assert Find(t.receipts, RollbackByOperation(e.s, found.value.operation)).None? <==>
             !HasMove(t, e.s, found.value.operation, false);
      if Spendable(t, e.s, e.ticket, e.now) {
        SpendableParts(t, e.s, e.ticket, e.now);
      }
      assert Apply(t, e) != t ==> RollsBack(t, e, found.value);
    }
    forall source | RollsBack(t, e, source) ensures found == Some(source) && e.s in t.scopes {
      SpendableParts(t, e.s, e.ticket, e.now);
      OneReceiptPerId(t, source, found.value);
    }
  }

  lemma OneReceiptPerId(t: Tables, r: Receipt, r': Receipt)
    requires Inv(t) && r in t.receipts && r' in t.receipts && r.id == r'.id
    ensures r == r'
  {
    hide ScopeOk;
  }

  lemma WellFormedMove(t: Tables, r: Receipt)
    requires Inv(t) && r in t.receipts
    ensures r.after == r.before + 1 == r.Target().generation
  {
    hide ActionsOk, LedgerOk;
    assert ScopeOk(t, r.scope);
    AtItsGeneration(t, r);
  }
}
