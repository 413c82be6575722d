/**
 The store itself: an object whose methods update its tables in place.

 A method opens a transaction, writes row by row and commits; when a later statement of the
 transaction fails, the earlier writes are undone.  Each method is proved to do exactly what
 its transaction in `StoreSpec` says, and to extend the history of attempted transactions by
 its own: the tables are always those of the run the object has been through, so every theorem
 about runs is one about the object, as `Ledgers` shows.
 */
module RuntimeStore {
  import opened Common
  import opened RuntimeModels
  import opened StoreSpec
  import opened StoreInvariant
  import opened StoreRuns
  import opened StoreGuards

  /** The method left the tables and returned the answer its transaction prescribes. */
  predicate Implements<T(==)>(before: Tables, now: Tables, spec: Outcome<T>, r: Result<T, StoreError>) {
    && now == After(before, spec)
    && r == (if spec.Done? then Ok(spec.value) else Err(spec.error))
  }

  class Store {
    var scopes: map<ScopeId, ScopeRow>
    var actions: map<ActionKey, ActionRow>
    var tickets: map<string, TicketRow>
    var prepared: map<string, Prepared>
    var receipts: seq<Receipt>
    ghost var history: seq<Event>

    /** The tables are what the transactions attempted so far lead to. */
    ghost predicate Valid()
      reads this
    {
      Contents() == Exec(EMPTY, history)
    }

    constructor ()
      ensures Valid() && Contents() == EMPTY && history == []
    {
      scopes, actions, tickets, prepared, receipts := map[], map[], map[], map[], [];
      history := [];
    }

    /** The call attempted this transaction: it is added to the history, and the tables are those it leads to. */
    ghost predicate Follows(before: Tables, past: seq<Event>, e: Event)
      reads this
    {
      Contents() == Apply(before, e) && history == past + [e]
    }

    function Contents(): Tables
      reads this
    {
      Tables(scopes, actions, tickets, prepared, receipts)
    }

    method Initialize(s: ScopeId, binding: Binding, proof: BootstrapProof, valid: bool)
      returns (r: Result<Binding, StoreError>)
      modifies this
      ensures Implements(old(Contents()), Contents(), StoreSpec.Initialize(old(Contents()), s, binding, proof, valid),
                         r)
      ensures Follows(old(Contents()), old(history), InitializeEvent(s, binding, proof, valid))
      ensures old(Valid()) ==> Valid() && Inv(Contents()) && Grows(old(Contents()), Contents())
    {
      hide Exec, Inv, Grows;
      Attempted(history, InitializeEvent(s, binding, proof, valid));
      history := history + [InitializeEvent(s, binding, proof, valid)];
      if proof.scope != s || proof.binding != binding || !proof.Genuine() {
        return Err(Rejected);
      }
      if !valid || binding.generation != 0 {
        return Err(Rejected);
      }
      if s in scopes {
        return Err(Rejected);
      }
      scopes := scopes[s := ScopeRow(binding, binding.generation, Idle, 0, None)];
      return Ok(binding);
    }

    /** Scans the action rows of a scope once: who is running, and what the newest rows say. */
    method ScanActions(s: ScopeId) returns (running: set<OperationId>, top: nat, states: set<ActionState>)
      ensures running == RunningOperations(Contents(), s)
      ensures forall k | k in actions && k.scope == s :: actions[k].epoch <= top
      ensures forall k | k in actions && k.scope == s && actions[k].epoch == top :: actions[k].state in states
      ensures states == {} ==> top == 0
      ensures forall st | st in states :: exists k ::
              k in actions && k.scope == s && actions[k].epoch == top && actions[k].state == st
    {
      running, top, states := {}, 0, {};
      var pending := actions.Keys;
      while pending != {}
        invariant pending <= actions.Keys
        invariant running == set k | k in actions.Keys - pending && k.scope == s && actions[k].state.Running? ::
                  k.operation
        invariant forall k | k in actions.Keys - pending && k.scope == s :: actions[k].epoch <= top
        invariant forall k | k in actions.Keys - pending && k.scope == s && actions[k].epoch == top ::
                  actions[k].state in states
        invariant states == {} ==> top == 0
        invariant forall st | st in states ::
                  exists k :: k in actions.Keys - pending && k.scope == s && actions[k].epoch == top
                      && actions[k].state == st
      {
        var k :| k in pending;
        if k.scope == s {
          if actions[k].state.Running? {
            running := running + {k.operation};
          }
          if actions[k].epoch > top {
            top, states := actions[k].epoch, {actions[k].state};
          } else if actions[k].epoch == top {
            states := states + {actions[k].state};
          }
        }
        pending := pending - {k};
        assert k in actions.Keys - pending;
      }
    }

    method Row(s: ScopeId) returns (e: Option<StoreError>)
      ensures e == RowError(Contents(), s)
    {
      if s !in scopes {
        return Some(NotInitialized);
      }
      var row := scopes[s];
      if row.active.generation != row.generation || row.state.Running? != row.current.Some? {
        return Some(Rejected);
      }
      var running, top, states := ScanActions(s);
      if row.state.Running? {
        var key := ActionKey(s, row.current.value);
        if row.current.value == "" || running != {row.current.value} || key !in actions
           || actions[key].epoch != row.epoch {
          return Some(Rejected);
        }
      } else if running != {} {
        return Some(Rejected);
      }
      if top == row.epoch && exists st :: st in states && st != row.state {
        var st :| st in states && st != row.state;
        var k :| k in actions && k.scope == s && actions[k].epoch == top && actions[k].state == st;
        assert IsLatest(Contents(), k);
        return Some(Rejected);
      }
      return None;
    }

    method BeginAction(s: ScopeId, operation: OperationId, request: Digest) returns (r: Result<Lease, StoreError>)
      modifies this
      ensures Implements(old(Contents()), Contents(), StoreSpec.BeginAction(old(Contents()), s, operation, request), r)
      ensures Follows(old(Contents()), old(history), BeginEvent(s, operation, request))
      ensures old(Valid()) ==> Valid() && Inv(Contents()) && Grows(old(Contents()), Contents())
    {
      hide RowConsistent, Exec, Inv, Grows;
      Attempted(history, BeginEvent(s, operation, request));
      history := history + [BeginEvent(s, operation, request)];
      if operation == "" {
        return Err(Rejected);
      }
      var error := Row(s);
      if error.Some? {
        return Err(error.value);
      }
      var row := scopes[s];
      var key := ActionKey(s, operation);
      if key in actions {
        var existing := actions[key];
        if existing.request != request {
          return Err(ReplayConflict);
        }
        if existing.state.Running? {
          return Err(ActionInProgress);
        }
        if !row.state.Idle? {
          return Err(UncertainState);
        }
        return Ok(Lease(s, operation, request, existing.epoch, Idle, true, existing.outcome));
      }
      if row.state.Running? {
        return Err(ActionInProgress);
      }
      if row.state.Uncertain? {
        return Err(UncertainState);
      }
      var epoch := row.epoch + 1;
      scopes := scopes[s := row.(state := Running, epoch := epoch, current := Some(operation))];
      actions := actions[key := ActionRow(request, epoch, Running, None)];
      return Ok(Lease(s, operation, request, epoch, Running, false, None));
    }

    method EndAction(s: ScopeId, lease: Lease, uncertain: bool, outcome: seq<bv8>) returns (r: Result<(), StoreError>)
      modifies this
      ensures Implements(old(Contents()), Contents(),
                         StoreSpec.EndAction(old(Contents()), s, lease, uncertain, outcome), r)
      ensures Follows(old(Contents()), old(history), EndEvent(s, lease, uncertain, outcome))
      ensures old(Valid()) ==> Valid() && Inv(Contents()) && Grows(old(Contents()), Contents())
      ensures old(Valid()) ==> (r.Ok? <==> Current(old(Contents()), s, lease))
      ensures r.Ok? ==>
                && s in scopes && ActionKey(s, lease.operation) in actions
                && scopes[s].state == actions[ActionKey(s, lease.operation)].state
                && actions[ActionKey(s, lease.operation)].state == (if uncertain then Uncertain else Idle)
                && actions[ActionKey(s, lease.operation)].outcome == Some(outcome)
    {
      hide RowConsistent, Exec, Inv, Grows, Current;
      if Valid() {
        ReachableOk(history);
        EndCommits(Contents(), s, lease, uncertain, outcome);
      }
      Attempted(history, EndEvent(s, lease, uncertain, outcome));
      history := history + [EndEvent(s, lease, uncertain, outcome)];
      if lease.scope != s || !lease.state.Running? || lease.replayed {
        return Err(Rejected);
      }
      var target := if uncertain then Uncertain else Idle;
      var error := Row(s);
      if error.Some? {
        return Err(error.value);
      }
      var row := scopes[s];
      if !row.state.Running? || row.current != Some(lease.operation) || row.epoch != lease.epoch {
        return Err(Rejected);
      }
      var key := ActionKey(s, lease.operation);
      if key !in actions || !actions[key].state.Running? || actions[key].epoch != lease.epoch
         || actions[key].request != lease.request {
        return Err(Rejected);
      }
      scopes := scopes[s := row.(state := target, current := None)];
      actions := actions[key := actions[key].(state := target, outcome := Some(outcome))];
      return Ok(());
    }

    method Reconcile(s: ScopeId, proof: ReconciliationProof) returns (r: Result<(), StoreError>)
      modifies this
      ensures Implements(old(Contents()), Contents(), StoreSpec.Reconcile(old(Contents()), s, proof), r)
      ensures Follows(old(Contents()), old(history), ReconcileEvent(s, proof))
      ensures old(Valid()) ==> Valid() && Inv(Contents()) && Grows(old(Contents()), Contents())
      ensures old(Valid()) && r.Ok? ==>
                && s in old(scopes) && s in scopes && old(scopes)[s].state == Uncertain && scopes[s].state == Idle
                && ProofFor(proof, s, proof.operation, old(scopes)[s].epoch)
    {
      hide RowConsistent, Exec, Inv, Grows, ProofFor;
      if Valid() {
        ReachableOk(history);
        ReconcileCommits(Contents(), s, proof);
      }
      Attempted(history, ReconcileEvent(s, proof));
      history := history + [ReconcileEvent(s, proof)];
      if proof.scope != s || !proof.Genuine() {
        return Err(Rejected);
      }
      var error := Row(s);
      if error.Some? {
        return Err(error.value);
      }
      var row := scopes[s];
      var key := ActionKey(s, proof.operation);
      if !row.state.Uncertain? || key !in actions || !actions[key].state.Uncertain?
         || actions[key].epoch != proof.epoch {
        return Err(Rejected);
      }
      scopes := scopes[s := row.(state := Idle, current := None)];
      actions := actions[key := actions[key].(state := Idle)];
      return Ok(());
    }

    method ReserveBoundary(s: ScopeId, operation: OperationId, expected: nat, lifetime: int, id: string, now: Instant)
      returns (r: Result<Ticket, StoreError>)
      modifies this
      ensures Implements(old(Contents()), Contents(),
                         StoreSpec.ReserveBoundary(old(Contents()), s, operation, expected, lifetime, id, now), r)
      ensures Follows(old(Contents()), old(history), ReserveEvent(s, operation, expected, lifetime, id, now))
      ensures old(Valid()) ==> Valid() && Inv(Contents()) && Grows(old(Contents()), Contents())
    {
      hide RowConsistent, Exec, Inv, Grows;
      Attempted(history, ReserveEvent(s, operation, expected, lifetime, id, now));
      history := history + [ReserveEvent(s, operation, expected, lifetime, id, now)];
      if operation == "" || lifetime <= 0 || lifetime > MAX_TICKET_LIFETIME {
        return Err(Rejected);
      }
      var error := Row(s);
      if error.Some? {
        return Err(error.value);
      }
      var row := scopes[s];
      if row.state.Uncertain? {
        return Err(UncertainState);
      }
      if !row.state.Idle? {
        return Err(ActionInProgress);
      }
      if row.generation != expected {
        return Err(GenerationMismatch);
      }
      var key := ActionKey(s, operation);
      if key !in actions || !actions[key].state.Idle? || actions[key].epoch != row.epoch {
        return Err(Rejected);
      }
      var expires := now + lifetime;
      var unsigned := Ticket(id, s, expected, row.epoch, operation, expires, Forged(0));
      var ticket := unsigned.(signature := TicketMac(id, s, expected, row.epoch, operation, expires));
      if id in tickets {
        return Err(Rejected);
      }
      tickets := tickets[id := TicketRow(ticket, false)];
      return Ok(ticket);
    }

    /** Marks a pending ticket consumed; reports whether exactly one row changed. */
    method SpendTicket(ticket: Ticket) returns (updated: bool)
      modifies this`tickets
      ensures updated <==> ticket.id in old(tickets) && old(tickets)[ticket.id] == TicketRow(ticket, false)
      ensures tickets == if updated then old(tickets)[ticket.id := TicketRow(ticket, true)] else old(tickets)
    {
      updated := ticket.id in tickets && tickets[ticket.id] == TicketRow(ticket, false);
      if updated {
        tickets := tickets[ticket.id := TicketRow(ticket, true)];
      }
    }

    method ConsumeBoundary(s: ScopeId, ticket: Ticket, now: Instant) returns (r: Result<Ticket, StoreError>)
      modifies this
      ensures Implements(old(Contents()), Contents(), StoreSpec.ConsumeBoundary(old(Contents()), s, ticket, now), r)
      ensures Follows(old(Contents()), old(history), ConsumeEvent(s, ticket, now))
      ensures old(Valid()) ==> Valid() && Inv(Contents()) && Grows(old(Contents()), Contents())
    {
      hide RowConsistent, Exec, Inv, Grows;
      Attempted(history, ConsumeEvent(s, ticket, now));
      history := history + [ConsumeEvent(s, ticket, now)];
      if ticket.scope != s || !ticket.Genuine() {
        return Err(Rejected);
      }
      var error := Row(s);
      if error.Some? {
        return Err(error.value);
      }
      if !TicketUsable(Contents(), s, ticket, now) {
        return Err(Rejected);
      }
      var updated := SpendTicket(ticket);
      return Ok(ticket);
    }

    method SavePrepared(record: Prepared) returns (r: Result<(), StoreError>)
      modifies this
      ensures Implements(old(Contents()), Contents(), StoreSpec.SavePrepared(old(Contents()), record), r)
      ensures Follows(old(Contents()), old(history), PrepareEvent(record))
      ensures old(Valid()) ==> Valid() && Inv(Contents()) && Grows(old(Contents()), Contents())
    {
      hide RowConsistent, Exec, Inv, Grows;
      Attempted(history, PrepareEvent(record));
      history := history + [PrepareEvent(record)];
      var error := Row(record.scope);
      if error.Some? {
        return Err(error.value);
      }
      if record.id in prepared {
        return Err(Rejected);
      }
      prepared := prepared[record.id := record];
      return Ok(());
    }

    /** Walks the receipts in order and returns the first one the query is about. */
    method FindReceipt(q: Query) returns (found: Option<Receipt>)
      ensures found == Find(receipts, q)
    {
      var i := 0;
      while i < |receipts|
        invariant 0 <= i <= |receipts|
        invariant Find(receipts, q) == Find(receipts[i..], q)
      {
        if q.Matches(receipts[i]) {
          return Some(receipts[i]);
        }
        i := i + 1;
      }
      return None;
    }

    /** Pointer, ticket and receipt are written in turn; a failing insertion rolls the transaction back. */
    method CommitReceipt(s: ScopeId, ticket: Ticket, receipt: Receipt) returns (r: Result<Receipt, StoreError>)
      requires s in scopes
      requires ticket.id in tickets && tickets[ticket.id] == TicketRow(ticket, false)
      modifies this`scopes, this`tickets, this`receipts
      ensures Implements(old(Contents()), Contents(), Commit(old(Contents()), s, ticket, receipt), r)
    {
      if !receipt.WellFormed() {
        return Err(Rejected);
      }
      var scopesBefore, ticketsBefore := scopes, tickets;
      scopes := scopes[s := scopes[s].(active := receipt.Target(), generation := receipt.after)];
      var updated := SpendTicket(ticket);
      if exists other :: other in receipts && other.id == receipt.id {
        scopes, tickets := scopesBefore, ticketsBefore;
        return Err(Rejected);
      }
      receipts := receipts + [receipt];
      return Ok(receipt);
    }

    /** The transaction of an activation: replayed, committed under every guard, or refused. */
    method CommitActivation(s: ScopeId, preparedId: string, ticket: Ticket, approval: Digest,
                            authorized: bool, receiptId: string, now: Instant)
      returns (r: Result<Receipt, StoreError>)
      modifies this`scopes, this`tickets, this`receipts
      ensures Implements(old(Contents()), Contents(),
                         StoreSpec.ActivatePrepared(old(Contents()), s, preparedId, ticket, approval, authorized,
                                                    receiptId, now), r)
      ensures Inv(old(Contents())) ==>
                (Contents() != old(Contents()) <==>
                 Activates(old(Contents()), ActivateEvent(s, preparedId, ticket, approval, authorized, receiptId, now)))
    {
      hide RowConsistent, Commit, Find, TicketFor, Activates, Inv, Apply;
      AppliedActivate(Contents(), s, preparedId, ticket, approval, authorized, receiptId, now);
      if Inv(Contents()) {
        ActivateCommits(Contents(), ActivateEvent(s, preparedId, ticket, approval, authorized, receiptId, now));
      }
      if !("sha256:" <= approval) {
        return Err(Rejected);
      }
      var error := Row(s);
      if error.Some? {
        return Err(error.value);
      }
      var row := scopes[s];
      var loaded := LoadPrepared(Contents(), s, preparedId);
      if loaded.None? {
        return Err(Rejected);
      }
      var record := loaded.value;
      var replay := FindReceipt(ActivationByOperation(s, record.operation));
      if replay.Some? {
        if replay.value.request != record.request || replay.value.prepared != record.id {
          return Err(ReplayConflict);
        }
        return Ok(replay.value);
      }
      if now >= record.expiresAt || record.oldBinding != row.active {
        return Err(Rejected);
      }
      if !TicketFor(Contents(), s, ticket, now, record.operation, record.request) {
        return Err(Rejected);
      }
      if record.newBinding.generation != row.generation + 1 {
        return Err(GenerationMismatch);
      }
      if !authorized {
        return Err(Rejected);
      }
      StillPending(Contents(), s, ticket, now, record.operation, record.request);
      var receipt := Activation(receiptId, s, record.operation, record.id, ticket.id, record.request,
                                row.active, record.newBinding, row.generation, record.newBinding.generation, approval);
      r := CommitReceipt(s, ticket, receipt);
    }

    method ActivatePrepared(s: ScopeId, preparedId: string, ticket: Ticket, approval: Digest,
                            authorized: bool, receiptId: string, now: Instant)
      returns (r: Result<Receipt, StoreError>)
      modifies this
      ensures Implements(old(Contents()), Contents(),
                         StoreSpec.ActivatePrepared(old(Contents()), s, preparedId, ticket, approval, authorized,
                                                    receiptId, now), r)
      ensures Follows(old(Contents()), old(history),
                      ActivateEvent(s, preparedId, ticket, approval, authorized, receiptId, now))
      ensures old(Valid()) ==> Valid() && Inv(Contents()) && Grows(old(Contents()), Contents())
      ensures old(Valid()) ==>
                (Contents() != old(Contents()) <==>
                 Activates(old(Contents()), ActivateEvent(s, preparedId, ticket, approval, authorized, receiptId, now)))
    {
      hide StoreSpec.ActivatePrepared, Exec, Inv, Grows, Apply, Activates;
      ReachableOk(history);
      AppliedActivate(Contents(), s, preparedId, ticket, approval, authorized, receiptId, now);
      Attempted(history, ActivateEvent(s, preparedId, ticket, approval, authorized, receiptId, now));
      history := history + [ActivateEvent(s, preparedId, ticket, approval, authorized, receiptId, now)];
      r := CommitActivation(s, preparedId, ticket, approval, authorized, receiptId, now);
    }

    method RollbackReceipt(s: ScopeId, sourceId: string, ticket: Ticket, authorized: bool, receiptId: string,
                           now: Instant)
      returns (r: Result<Receipt, StoreError>)
      modifies this
      ensures Implements(old(Contents()), Contents(),
                         StoreSpec.RollbackReceipt(old(Contents()), s, sourceId, ticket, authorized, receiptId, now), r)
      ensures Follows(old(Contents()), old(history), RollbackEvent(s, sourceId, ticket, authorized, receiptId, now))
      ensures old(Valid()) ==> Valid() && Inv(Contents()) && Grows(old(Contents()), Contents())
      ensures old(Valid()) && Contents() != old(Contents()) ==> Undoes(old(Contents()), Contents(), s, sourceId)
      ensures old(Valid()) ==>
                (Contents() != old(Contents()) <==>
                 exists source :: RollsBack(old(Contents()),
                                            RollbackEvent(s, sourceId, ticket, authorized, receiptId, now), source))
    {
      hide RowConsistent, Commit, Exec, Inv, Grows, Undoes, Find, TicketFor, Apply, RollsBack;
      ReachableOk(history);
      if Valid() {
        RollbackCommits(Contents(), RollbackEvent(s, sourceId, ticket, authorized, receiptId, now));
      }
      AppliedRollback(Contents(), s, sourceId, ticket, authorized, receiptId, now);
      UndoneByRollback(history, s, sourceId, ticket, authorized, receiptId, now);
      Attempted(history, RollbackEvent(s, sourceId, ticket, authorized, receiptId, now));
      history := history + [RollbackEvent(s, sourceId, ticket, authorized, receiptId, now)];
      var error := Row(s);
      if error.Some? {
        return Err(error.value);
      }
      var row := scopes[s];
      var source := FindReceipt(ById(s, sourceId));
      if source.None? || !source.value.Activation? {
        return Err(Rejected);
      }
      var existing := FindReceipt(RollbackByOperation(s, source.value.operation));
      if existing.Some? {
        return Ok(existing.value);
      }
      if row.generation != source.value.after || row.active != source.value.newBinding {
        return Err(GenerationMismatch);
      }
      if !TicketFor(Contents(), s, ticket, now, source.value.operation, source.value.request) {
        return Err(Rejected);
      }
      if !authorized {
        return Err(Rejected);
      }
      StillPending(Contents(), s, ticket, now, source.value.operation, source.value.request);
      var restored := source.value.oldBinding.(generation := row.generation + 1);
      var receipt := Rollback(receiptId, source.value.id, s, source.value.operation, ticket.id, source.value.request,
                              restored, row.generation, restored.generation);
      r := CommitReceipt(s, ticket, receipt);
    }
  }

  lemma AppliedActivate(t: Tables, s: ScopeId, preparedId: string, ticket: Ticket, approval: Digest, authorized: bool,
                        receiptId: string, now: Instant)
    ensures Apply(t, ActivateEvent(s, preparedId, ticket, approval, authorized, receiptId, now))
         == After(t, StoreSpec.ActivatePrepared(t, s, preparedId, ticket, approval, authorized, receiptId, now))
  {
  }

  lemma AppliedRollback(t: Tables, s: ScopeId, sourceId: string, ticket: Ticket, authorized: bool, receiptId: string,
                        now: Instant)
    ensures Apply(t, RollbackEvent(s, sourceId, ticket, authorized, receiptId, now))
         == After(t, StoreSpec.RollbackReceipt(t, s, sourceId, ticket, authorized, receiptId, now))
  {
  }

  lemma StillPending(t: Tables, s: ScopeId, ticket: Ticket, now: Instant, operation: OperationId, request: Digest)
    requires s in t.scopes && TicketFor(t, s, ticket, now, operation, request)
    ensures ticket.id in t.tickets && t.tickets[ticket.id] == TicketRow(ticket, false)
  {
  }

  /** One more attempted transaction keeps the invariant and loses nothing. */
  lemma Attempted(es: seq<Event>, e: Event)
    ensures Exec(EMPTY, es + [e]) == Apply(Exec(EMPTY, es), e)
    ensures Inv(Exec(EMPTY, es + [e])) && Grows(Exec(EMPTY, es), Exec(EMPTY, es + [e]))
  {
    hide Exec, Apply, Inv, Grows;
    ExecAppend(es, e);
    ReachableOk(es);
    ApplyKeeps(Exec(EMPTY, es), e);
  }

  /** In every reachable state a rollback that changes anything undoes the newest move. */
  lemma UndoneByRollback(es: seq<Event>, s: ScopeId, sourceId: string, ticket: Ticket, authorized: bool,
                         receiptId: string, now: Instant)
    ensures var t := Exec(EMPTY, es);
            var outcome := StoreSpec.RollbackReceipt(t, s, sourceId, ticket, authorized, receiptId, now);
            outcome.Done? && outcome.tables != t ==> Undoes(t, outcome.tables, s, sourceId)
  {
    hide StoreSpec.RollbackReceipt, Undoes, Inv, Exec;
    var t := Exec(EMPTY, es);
    ReachableOk(es);
    var outcome := StoreSpec.RollbackReceipt(t, s, sourceId, ticket, authorized, receiptId, now);
    if outcome.Done? && outcome.tables != t {
      RollbackUndoesLastMove(t, s, sourceId, ticket, authorized, receiptId, now, outcome.tables, outcome.value);
    }
  }

  /**
   What the object's tables always satisfy, whatever calls were made on it: the ledger of a scope
   is gapless, replays from its bootstrap binding to the active one and is bounded by the actions
   begun, and the row passes its self-consistency test.
   */
  lemma Ledgers(store: Store, s: ScopeId)
    requires store.Valid() && s in store.scopes
    ensures BootstrapOf(store.history, s).Some?
    ensures var row := store.scopes[s];
            var ledger := Ledger(store.receipts, s);
            && |ledger| == row.generation <= 2 * row.epoch
            && (forall g | 0 <= g < |ledger| :: ledger[g].before == g)
            && Replay(BootstrapOf(store.history, s).value, ledger) == Some(row.active)
            && RowError(store.Contents(), s) == None
  {
    hide Exec, Ledger, Replay, RowConsistent, BootstrapOf, Inv;
    GaplessLedger(store.history, s);
    GenerationBound(store.history, s);
    RowNeverRejected(store.history, s);
    var ledger := Ledger(store.receipts, s);
    forall g | 0 <= g < |ledger| ensures ledger[g].before == g {
      assert ledger[g] in ledger;
    }
  }
}
