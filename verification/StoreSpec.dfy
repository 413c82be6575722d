/**
 The transactions of the runtime store as functions on its tables.

 Every public method of the store is one database transaction, so it is one function from
 the tables before to either the tables after and a value, or an error with the tables
 unchanged.  The clock, generated ids and the answers of external validators are
 arguments: whatever they are, the theorems about runs hold.
 */
module StoreSpec {
  import opened Common
  import opened RuntimeModels

  datatype StoreError =
    | Rejected
    | NotInitialized
    | ActionInProgress
    | UncertainState
    | GenerationMismatch
    | ReplayConflict

  datatype ScopeRow =
    ScopeRow(active: Binding, generation: nat, state: ActionState, epoch: nat, current: Option<OperationId>)

  datatype ActionKey = ActionKey(scope: ScopeId, operation: OperationId)

  datatype ActionRow = ActionRow(request: Digest, epoch: nat, state: ActionState, outcome: Option<seq<bv8>>)

  datatype TicketRow = TicketRow(ticket: Ticket, consumed: bool)

  datatype Tables =
    Tables(scopes: map<ScopeId, ScopeRow>, actions: map<ActionKey, ActionRow>,
           tickets: map<string, TicketRow>, prepared: map<string, Prepared>, receipts: seq<Receipt>)

  const EMPTY := Tables(map[], map[], map[], map[], [])

  datatype Outcome<+T> = Done(tables: Tables, value: T) | Failed(error: StoreError)

  const MAX_TICKET_LIFETIME := 600_000_000  // ten minutes in microseconds

  // ---------------------------------------------------------------- scope rows

  function RunningOperations(t: Tables, s: ScopeId): set<OperationId> {
    set k | k in t.actions && k.scope == s && t.actions[k].state.Running? :: k.operation
  }

  /** The action has the highest epoch recorded for its scope. */
  predicate IsLatest(t: Tables, k: ActionKey) {
    && k in t.actions
    && forall k' | k' in t.actions && k'.scope == k.scope :: t.actions[k'].epoch <= t.actions[k].epoch
  }

  /** The self-consistency test every transaction makes when it reads its scope row. */
  predicate RowConsistent(t: Tables, s: ScopeId)
    requires s in t.scopes
  {
    var row := t.scopes[s];
    && row.active.generation == row.generation
    && (row.state.Running? <==> row.current.Some?)
    && (row.current.Some? ==>
          && row.current.value != ""
          && RunningOperations(t, s) == {row.current.value}
          && ActionKey(s, row.current.value) in t.actions
          && t.actions[ActionKey(s, row.current.value)].epoch == row.epoch)
    && (!row.state.Running? ==> RunningOperations(t, s) == {})
    && forall k | k in t.actions && k.scope == s && IsLatest(t, k) && t.actions[k].epoch == row.epoch ::
         t.actions[k].state == row.state
  }

  function RowError(t: Tables, s: ScopeId): (e: Option<StoreError>)
    ensures e.None? ==> s in t.scopes
  {
    if s !in t.scopes then Some(NotInitialized)
    else if !RowConsistent(t, s) then Some(Rejected)
    else None
  }

  // ------------------------------------------------------------ receipt lookups

  datatype Query =
    | ActivationByOperation(scope: ScopeId, operation: OperationId)
    | RollbackByOperation(scope: ScopeId, operation: OperationId)
    | ActivationByPrepared(scope: ScopeId, prepared: string)
    | RollbackBySource(scope: ScopeId, source: string)
    | ById(scope: ScopeId, id: string)
  {
    predicate Matches(r: Receipt) {
      && r.scope == scope
      && match this {
        case ActivationByOperation(_, operation) => r.Activation? && r.operation == operation
        case RollbackByOperation(_, operation) => r.Rollback? && r.operation == operation
        case ActivationByPrepared(_, prepared) => r.Activation? && r.prepared == prepared
        case RollbackBySource(_, source) => r.Rollback? && r.source == source
        case ById(_, id) => r.id == id
      }
    }
  }

  function Find(rs: seq<Receipt>, q: Query): (found: Option<Receipt>)
    ensures found.Some? ==> found.value in rs && q.Matches(found.value)
    ensures found.None? ==> forall r | r in rs :: !q.Matches(r)
  {
    if rs == [] then None
    else if q.Matches(rs[0]) then Some(rs[0])
    else Find(rs[1..], q)
  }

  predicate ReceiptIdUsed(t: Tables, id: string) {
    exists r :: r in t.receipts && r.id == id
  }

  // -------------------------------------------------------------- transactions

  function Initialize(t: Tables, s: ScopeId, binding: Binding, proof: BootstrapProof, valid: bool): Outcome<Binding>
  {
    if proof.scope != s || proof.binding != binding || !proof.Genuine() then Failed(Rejected)
    else if !valid || binding.generation != 0 then Failed(Rejected)
    else if s in t.scopes then Failed(Rejected)
    else
      Done(t.(scopes := t.scopes[s := ScopeRow(binding, 0, Idle, 0, None)]), binding)
  }

  function BeginAction(t: Tables, s: ScopeId, operation: OperationId, request: Digest): Outcome<Lease>
  {
    if operation == "" then Failed(Rejected)
    else if RowError(t, s).Some? then Failed(RowError(t, s).value)
    else
      var row := t.scopes[s];
      var key := ActionKey(s, operation);
      if key in t.actions then
        var existing := t.actions[key];
        if existing.request != request then Failed(ReplayConflict)
        else if existing.state.Running? then Failed(ActionInProgress)
        else if !row.state.Idle? then Failed(UncertainState)
        else Done(t, Lease(s, operation, request, existing.epoch, Idle, true, existing.outcome))
      else if row.state.Running? then Failed(ActionInProgress)
      else if row.state.Uncertain? then Failed(UncertainState)
      else
        var epoch := row.epoch + 1;
        Done(t.(scopes := t.scopes[s := row.(state := Running, epoch := epoch, current := Some(operation))],
                actions := t.actions[key := ActionRow(request, epoch, Running, None)]),
             Lease(s, operation, request, epoch, Running, false, None))
  }

  function EndAction(t: Tables, s: ScopeId, lease: Lease, uncertain: bool, outcome: seq<bv8>): Outcome<()>
  {
    if lease.scope != s || !lease.state.Running? || lease.replayed then Failed(Rejected)
    else if RowError(t, s).Some? then Failed(RowError(t, s).value)
    else
      var row := t.scopes[s];
      var key := ActionKey(s, lease.operation);
      if !row.state.Running? || row.current != Some(lease.operation) || row.epoch != lease.epoch then Failed(Rejected)
      else if key !in t.actions then Failed(Rejected)
      else
        var action := t.actions[key];
        if !action.state.Running? || action.epoch != lease.epoch
           || action.request != lease.request then Failed(Rejected)
        else
          var target := if uncertain then Uncertain else Idle;
          Done(t.(scopes := t.scopes[s := row.(state := target, current := None)],
                  actions := t.actions[key := action.(state := target, outcome := Some(outcome))]),
               ())
  }

  function Reconcile(t: Tables, s: ScopeId, proof: ReconciliationProof): Outcome<()>
  {
    if proof.scope != s || !proof.Genuine() then Failed(Rejected)
    else if RowError(t, s).Some? then Failed(RowError(t, s).value)
    else
      var row := t.scopes[s];
      var key := ActionKey(s, proof.operation);
      if !row.state.Uncertain? || key !in t.actions then Failed(Rejected)
      else if !t.actions[key].state.Uncertain? || t.actions[key].epoch != proof.epoch then Failed(Rejected)
      else
        Done(t.(scopes := t.scopes[s := row.(state := Idle, current := None)],
                actions := t.actions[key := t.actions[key].(state := Idle)]),
             ())
  }

  function ReserveBoundary(t: Tables, s: ScopeId, operation: OperationId, expected: nat,
                           lifetime: int, id: string, now: Instant): Outcome<Ticket>
  {
    if operation == "" || lifetime <= 0 || lifetime > MAX_TICKET_LIFETIME then Failed(Rejected)
    else if RowError(t, s).Some? then Failed(RowError(t, s).value)
    else
      var row := t.scopes[s];
      var key := ActionKey(s, operation);
      if row.state.Uncertain? then Failed(UncertainState)
      else if !row.state.Idle? then Failed(ActionInProgress)
      else if row.generation != expected then Failed(GenerationMismatch)
      else if key !in t.actions || !t.actions[key].state.Idle?
        || t.actions[key].epoch != row.epoch then Failed(Rejected)
      else if id in t.tickets then Failed(Rejected)
      else
        var expires := now + lifetime;
        var ticket := Ticket(id, s, expected, row.epoch, operation, expires,
                             TicketMac(id, s, expected, row.epoch, operation, expires));
        Done(t.(tickets := t.tickets[id := TicketRow(ticket, false)]), ticket)
  }

  /** What a pending boundary ticket must satisfy before a transaction may spend it. */
  predicate TicketUsable(t: Tables, s: ScopeId, ticket: Ticket, now: Instant)
    requires s in t.scopes
  {
    var row := t.scopes[s];
    && ticket.scope == s
    && ticket.Genuine()
    && ticket.id in t.tickets
    && t.tickets[ticket.id] == TicketRow(ticket, false)
    && now < ticket.expiresAt
    && row.state.Idle?
    && row.generation == ticket.expectedGeneration
    && row.epoch == ticket.epoch
    && ActionKey(s, ticket.operation) in t.actions
    && t.actions[ActionKey(s, ticket.operation)].state.Idle?
    && t.actions[ActionKey(s, ticket.operation)].epoch == ticket.epoch
  }

  /** The extra conditions on a ticket that is to move the pointer for one operation. */
  predicate TicketFor(t: Tables, s: ScopeId, ticket: Ticket, now: Instant, operation: OperationId, request: Digest)
    requires s in t.scopes
  {
    && ticket.operation == operation
    && TicketUsable(t, s, ticket, now)
    && t.actions[ActionKey(s, operation)].request == request
  }

  function ConsumeBoundary(t: Tables, s: ScopeId, ticket: Ticket, now: Instant): Outcome<Ticket>
  {
    if ticket.scope != s || !ticket.Genuine() then Failed(Rejected)
    else if RowError(t, s).Some? then Failed(RowError(t, s).value)
    else if !TicketUsable(t, s, ticket, now) then Failed(Rejected)
    else Done(t.(tickets := t.tickets[ticket.id := TicketRow(ticket, true)]), ticket)
  }

  function SavePrepared(t: Tables, record: Prepared): Outcome<()>
  {
    if RowError(t, record.scope).Some? then Failed(RowError(t, record.scope).value)
    else if record.id in t.prepared then Failed(Rejected)
    else Done(t.(prepared := t.prepared[record.id := record]), ())
  }

  function LoadPrepared(t: Tables, s: ScopeId, id: string): Option<Prepared>
  {
    if id in t.prepared && t.prepared[id].scope == s && t.prepared[id].id == id && t.prepared[id].WellFormed()
    then Some(t.prepared[id])
    else None
  }

  /** Pointer move, ticket consumption and receipt insertion: all three or none. */
  function Commit(t: Tables, s: ScopeId, ticket: Ticket, receipt: Receipt): Outcome<Receipt>
    requires s in t.scopes
  {
    if !receipt.WellFormed() || ReceiptIdUsed(t, receipt.id) then Failed(Rejected)
    else
      Done(t.(scopes := t.scopes[s := t.scopes[s].(active := receipt.Target(), generation := receipt.after)],
              tickets := t.tickets[ticket.id := TicketRow(ticket, true)],
              receipts := t.receipts + [receipt]),
           receipt)
  }

  function ActivatePrepared(t: Tables, s: ScopeId, preparedId: string, ticket: Ticket, approval: Digest,
                            authorized: bool, receiptId: string, now: Instant): Outcome<Receipt>
  {
    if !("sha256:" <= approval) then Failed(Rejected)
    else if RowError(t, s).Some? then Failed(RowError(t, s).value)
    else if LoadPrepared(t, s, preparedId).None? then Failed(Rejected)
    else
      var row := t.scopes[s];
      var record := LoadPrepared(t, s, preparedId).value;
      var replay := Find(t.receipts, ActivationByOperation(s, record.operation));
      if replay.Some? then
        if replay.value.request != record.request || replay.value.prepared != record.id then Failed(ReplayConflict)
        else Done(t, replay.value)
      else if now >= record.expiresAt || record.oldBinding != row.active then Failed(Rejected)
      else if !TicketFor(t, s, ticket, now, record.operation, record.request) then Failed(Rejected)
      else if record.newBinding.generation != row.generation + 1 then Failed(GenerationMismatch)
      else if !authorized then Failed(Rejected)
      else
        Commit(t, s, ticket,
               Activation(receiptId, s, record.operation, record.id, ticket.id, record.request,
                          row.active, record.newBinding, row.generation, record.newBinding.generation, approval))
  }

  function RollbackReceipt(t: Tables, s: ScopeId, sourceId: string, ticket: Ticket,
                           authorized: bool, receiptId: string, now: Instant): Outcome<Receipt>
  {
    if RowError(t, s).Some? then Failed(RowError(t, s).value)
    else
      var row := t.scopes[s];
      var source := Find(t.receipts, ById(s, sourceId));
      if source.None? || !source.value.Activation? then Failed(Rejected)
      else
        var existing := Find(t.receipts, RollbackByOperation(s, source.value.operation));
        if existing.Some? then Done(t, existing.value)
        else if row.generation != source.value.after
          || row.active != source.value.newBinding then Failed(GenerationMismatch)
        else if !TicketFor(t, s, ticket, now, source.value.operation, source.value.request) then Failed(Rejected)
        else if !authorized then Failed(Rejected)
        else
          var restored := source.value.oldBinding.(generation := row.generation + 1);
          Commit(t, s, ticket,
                 Rollback(receiptId, source.value.id, s, source.value.operation, ticket.id, source.value.request,
                          restored, row.generation, restored.generation))
  }

  // ---------------------------------------------------------------------- runs

  /** One attempted transaction by any client, with everything the outside contributes to it. */
  datatype Event =
    | InitializeEvent(s: ScopeId, binding: Binding, bootstrap: BootstrapProof, valid: bool)
    | BeginEvent(s: ScopeId, operation: OperationId, request: Digest)
    | EndEvent(s: ScopeId, lease: Lease, uncertain: bool, outcome: seq<bv8>)
    | ReconcileEvent(s: ScopeId, proof: ReconciliationProof)
    | ReserveEvent(s: ScopeId, operation: OperationId, expected: nat, lifetime: int, id: string, now: Instant)
    | ConsumeEvent(s: ScopeId, ticket: Ticket, now: Instant)
    | PrepareEvent(record: Prepared)
    | ActivateEvent(s: ScopeId, prepared: string, ticket: Ticket, approval: Digest, authorized: bool, id: string,
                    now: Instant)
    | RollbackEvent(s: ScopeId, source: string, ticket: Ticket, authorized: bool, id: string, now: Instant)
  {
    function Scope(): ScopeId {
      if PrepareEvent? then record.scope else s
    }
  }

  function After<T>(t: Tables, outcome: Outcome<T>): Tables {
    if outcome.Done? then outcome.tables else t
  }

  /** A failed transaction is rolled back, so its event leaves the tables as they were. */
  function Apply(t: Tables, e: Event): Tables {
    match e {
      case InitializeEvent(s, binding, proof, valid) => After(t, Initialize(t, s, binding, proof, valid))
      case BeginEvent(s, operation, request) => After(t, BeginAction(t, s, operation, request))
      case EndEvent(s, lease, uncertain, outcome) => After(t, EndAction(t, s, lease, uncertain, outcome))
      case ReconcileEvent(s, proof) => After(t, Reconcile(t, s, proof))
      case ReserveEvent(s, operation, expected, lifetime, id, now) =>
        After(t, ReserveBoundary(t, s, operation, expected, lifetime, id, now))
      case ConsumeEvent(s, ticket, now) => After(t, ConsumeBoundary(t, s, ticket, now))
      case PrepareEvent(record) => After(t, SavePrepared(t, record))
      case ActivateEvent(s, prepared, ticket, approval, authorized, id, now) =>
        After(t, ActivatePrepared(t, s, prepared, ticket, approval, authorized, id, now))
      case RollbackEvent(s, source, ticket, authorized, id, now) =>
        After(t, RollbackReceipt(t, s, source, ticket, authorized, id, now))
    }
  }

  /** The tables after any interleaving of transactions, in the order the database serialised them. */
  function Exec(t: Tables, es: seq<Event>): Tables
    decreases |es|
  {
    if es == [] then t else Apply(Exec(t, es[..|es| - 1]), es[|es| - 1])
  }

  lemma ExecAppend(es: seq<Event>, e: Event)
    ensures Exec(EMPTY, es + [e]) == Apply(Exec(EMPTY, es), e)
  {
    assert (es + [e])[..|es|] == es;
  }
}
