/**
 Runs of the runtime store that go through the whole protocol again and again.

 They show that the bound on generations is reached for every number of actions, so that
 nothing proved about runs is true only for want of runs.
 */
module StoreCycles {
  import opened Common
  import opened RuntimeModels
  import opened StoreSpec
  import opened StoreInvariant

  function Name(n: nat): (name: string)
    ensures |name| == n
  {
    seq(n, _ => 'x')
  }

  /** Names in use are no longer than this; longer ones are free. */
  ghost predicate Bounded(t: Tables, operations: nat, tickets: nat, prepared: nat, receipts: nat) {
    && (forall k | k in t.actions :: |k.operation| <= operations)
    && (forall id | id in t.tickets :: |id| <= tickets)
    && (forall id | id in t.prepared :: |id| <= prepared)
    && (forall r | r in t.receipts :: |r.id| <= receipts && |r.operation| <= operations)
  }

  const SCOPE: ScopeId := "scope"
  const REQUEST: Digest := "request"

  ghost predicate Ready(t: Tables, n: nat) {
    && Inv(t) && SCOPE in t.scopes
    && t.scopes[SCOPE].state.Idle? && t.scopes[SCOPE].epoch == n && t.scopes[SCOPE].generation == 2 * n
    && Bounded(t, n, 2 * n, n, 2 * n)
  }

  /** The operation of the current epoch, the n-th after the first, has finished, and the pointer is at generation g. */
  ghost predicate Finished(t: Tables, n: nat, g: nat) {
    var key := ActionKey(SCOPE, Name(n + 1));
    && Inv(t) && SCOPE in t.scopes
    && t.scopes[SCOPE].state.Idle? && t.scopes[SCOPE].epoch == n + 1 && t.scopes[SCOPE].generation == g
    && key in t.actions && t.actions[key].state.Idle? && t.actions[key].epoch == n + 1
      && t.actions[key].request == REQUEST
  }

  ghost predicate Begun(t: Tables, n: nat) {
    var key := ActionKey(SCOPE, Name(n + 1));
    && Inv(t) && SCOPE in t.scopes
    && t.scopes[SCOPE].state.Running? && t.scopes[SCOPE].epoch == n + 1 && t.scopes[SCOPE].generation == 2 * n
    && t.scopes[SCOPE].current == Some(Name(n + 1))
    && key in t.actions && t.actions[key].state.Running? && t.actions[key].epoch == n + 1
      && t.actions[key].request == REQUEST
    && Bounded(t, n + 1, 2 * n, n, 2 * n)
    && Unmoved(t, n)
  }

  /** The current operation has no receipt. */
  ghost predicate Unmoved(t: Tables, n: nat) {
    forall r | r in t.receipts :: |r.id| <= 2 * n && |r.operation| <= n
  }

  /** The current operation has one receipt, its activation, which is where the pointer is. */
  ghost predicate MovedBy(t: Tables, n: nat, r: Receipt) {
    && r in t.receipts && r.Activation? && r.scope == SCOPE && r.id == Name(2 * n + 1) && r.operation == Name(n + 1)
    && r.request == REQUEST && r.after == 2 * n + 1
    && SCOPE in t.scopes && t.scopes[SCOPE].active == r.newBinding
    && forall other | other in t.receipts && other != r :: |other.id| <= 2 * n && |other.operation| <= n
  }

  ghost predicate Pending(t: Tables, n: nat, id: string, g: nat) {
    id in t.tickets && t.tickets[id] == TicketRow(TicketOf(id, g, n), false)
  }

  ghost predicate Stored(t: Tables, n: nat) {
    && Name(n + 1) in t.prepared && SCOPE in t.scopes
    && t.prepared[Name(n + 1)] == Record(t.scopes[SCOPE].active, n)
  }

  lemma Readable(t: Tables)
    requires Inv(t) && SCOPE in t.scopes
    ensures RowError(t, SCOPE) == None && t.scopes[SCOPE].active.generation == t.scopes[SCOPE].generation
  {
    hide LedgerOk;
    assert ScopeOk(t, SCOPE);
    RowAccepted(t, SCOPE);
  }

  lemma Start() returns (es: seq<Event>)
    ensures Ready(Exec(EMPTY, es), 0)
  {
    hide Inv, Apply, Bounded;
    es := [Starting()];
    ReachableOk(es);
    assert es == [] + [Starting()];
    ExecAppend([], Starting());
    Started();
  }

  function Starting(): Event {
    var binding := Binding("", "", "", 0);
    InitializeEvent(SCOPE, binding, BootstrapProof(SCOPE, binding, 0, BootstrapMac(SCOPE, binding, 0)), true)
  }

  lemma Started()
    ensures var t := Apply(EMPTY, Starting());
            && SCOPE in t.scopes
            && t.scopes[SCOPE] == ScopeRow(Binding("", "", "", 0), 0, Idle, 0, None)
            && Bounded(t, 0, 0, 0, 0)
  {
    hide BeginAction, EndAction, Reconcile, ReserveBoundary, ConsumeBoundary, SavePrepared, ActivatePrepared,
      RollbackReceipt;
  }

  function Record(b: Binding, n: nat): Prepared {
    Prepared(Name(n + 1), SCOPE, Name(n + 1), REQUEST, b, b.(generation := b.generation + 1), "", 1, [], Low, false)
  }

  function TicketOf(id: string, generation: nat, n: nat): Ticket {
    Ticket(id, SCOPE, generation, n + 1, Name(n + 1), 1, TicketMac(id, SCOPE, generation, n + 1, Name(n + 1), 1))
  }

  lemma BeginStep(t: Tables, n: nat)
    requires Ready(t, n)
    ensures Begun(Apply(t, BeginEvent(SCOPE, Name(n + 1), REQUEST)), n)
  {
    hide Inv, RowError, Name, Initialize, EndAction, Reconcile, ReserveBoundary, ConsumeBoundary, SavePrepared,
      ActivatePrepared, RollbackReceipt;
    Readable(t);
    ApplyKeeps(t, BeginEvent(SCOPE, Name(n + 1), REQUEST));
  }

  function Ending(n: nat): Event {
    EndEvent(SCOPE, Lease(SCOPE, Name(n + 1), REQUEST, n + 1, Running, false, None), false, [])
  }

  lemma EndStep(t: Tables, n: nat)
    requires Begun(t, n)
    ensures var t' := Apply(t, Ending(n));
            Finished(t', n, 2 * n) && Bounded(t', n + 1, 2 * n, n, 2 * n) && Unmoved(t', n)
  {
    hide Inv, RowError, Name, Initialize, BeginAction, Reconcile, ReserveBoundary, ConsumeBoundary, SavePrepared,
      ActivatePrepared, RollbackReceipt;
    Readable(t);
    ApplyKeeps(t, Ending(n));
  }

  lemma PrepareStep(t: Tables, n: nat)
    requires Finished(t, n, 2 * n) && Bounded(t, n + 1, 2 * n, n, 2 * n) && Unmoved(t, n)
    ensures var t' := Apply(t, PrepareEvent(Record(t.scopes[SCOPE].active, n)));
            Finished(t', n, 2 * n) && Bounded(t', n + 1, 2 * n, n + 1, 2 * n) && Unmoved(t', n) && Stored(t', n)
  {
    hide Inv, RowError, Name, Initialize, BeginAction, EndAction, Reconcile, ReserveBoundary, ConsumeBoundary,
      ActivatePrepared, RollbackReceipt;
    Readable(t);
    ApplyKeeps(t, PrepareEvent(Record(t.scopes[SCOPE].active, n)));
  }

  /** Reserving the next ticket changes the tickets and nothing else. */
  lemma ReserveStep(t: Tables, n: nat, id: string, g: nat)
    requires Finished(t, n, g) && id !in t.tickets
    ensures var t' := Apply(t, ReserveEvent(SCOPE, Name(n + 1), g, 1, id, 0));
            && Finished(t', n, g) && Pending(t', n, id, g)
            && t' == t.(tickets := t'.tickets) && t'.tickets.Keys == t.tickets.Keys + {id}
  {
    hide Inv, RowError, Name, Initialize, BeginAction, EndAction, Reconcile, SavePrepared, ConsumeBoundary,
      ActivatePrepared, RollbackReceipt;
    Readable(t);
    ApplyKeeps(t, ReserveEvent(SCOPE, Name(n + 1), g, 1, id, 0));
  }

  function Activating(n: nat): Event {
    ActivateEvent(SCOPE, Name(n + 1), TicketOf(Name(2 * n + 1), 2 * n, n), "sha256:", true, Name(2 * n + 1), 0)
  }

  lemma ActivateApplied(t: Tables, n: nat) returns (r: Receipt)
    requires Finished(t, n, 2 * n) && Unmoved(t, n) && Stored(t, n) && Pending(t, n, Name(2 * n + 1), 2 * n)
    ensures r.Activation? && r.scope == SCOPE && r.id == Name(2 * n + 1) && r.operation == Name(n + 1)
    ensures r.request == REQUEST && r.after == 2 * n + 1
    ensures Apply(t, Activating(n))
         == t.(scopes := t.scopes[SCOPE := t.scopes[SCOPE].(active := r.newBinding, generation := 2 * n + 1)],
               tickets := t.tickets[Name(2 * n + 1) := TicketRow(TicketOf(Name(2 * n + 1), 2 * n, n), true)],
               receipts := t.receipts + [r])
  {
    hide Inv, RowError, Name, Find, Initialize, BeginAction, EndAction, Reconcile, SavePrepared, ReserveBoundary,
      ConsumeBoundary, RollbackReceipt;
    Readable(t);
    assert Find(t.receipts, ActivationByOperation(SCOPE, Name(n + 1))).None?;
    var b := t.scopes[SCOPE].active;
    r := Activation(Name(2 * n + 1), SCOPE, Name(n + 1), Name(n + 1), Name(2 * n + 1), REQUEST,
                    b, b.(generation := b.generation + 1), 2 * n, 2 * n + 1, "sha256:");
    assert !ReceiptIdUsed(t, r.id);
  }

  lemma ActivateStep(t: Tables, n: nat)
    requires Finished(t, n, 2 * n) && Bounded(t, n + 1, 2 * n + 1, n + 1, 2 * n) && Unmoved(t, n)
    requires Stored(t, n) && Pending(t, n, Name(2 * n + 1), 2 * n)
    ensures var t' := Apply(t, Activating(n));
            && Finished(t', n, 2 * n + 1)
            && Bounded(t', n + 1, 2 * n + 1, n + 1, 2 * n + 1)
            && exists r :: MovedBy(t', n, r)
  {
    hide Inv, Apply, Name, TicketOf, Stored, Pending;
    var r := ActivateApplied(t, n);
    ApplyKeeps(t, Activating(n));
    assert MovedBy(Apply(t, Activating(n)), n, r);
  }

  function Undoing(n: nat): Event {
    RollbackEvent(SCOPE, Name(2 * n + 1), TicketOf(Name(2 * n + 2), 2 * n + 1, n), true, Name(2 * n + 2), 0)
  }

  lemma UndoApplied(t: Tables, n: nat, r: Receipt) returns (undo: Receipt)
    requires Finished(t, n, 2 * n + 1) && Bounded(t, n + 1, 2 * n + 2, n + 1, 2 * n + 1) && MovedBy(t, n, r)
    requires Pending(t, n, Name(2 * n + 2), 2 * n + 1)
    ensures undo.id == Name(2 * n + 2) && undo.operation == Name(n + 1)
    ensures Apply(t, Undoing(n))
         == t.(scopes := t.scopes[SCOPE := t.scopes[SCOPE].(active := undo.Target(), generation := 2 * n + 2)],
               tickets := t.tickets[Name(2 * n + 2) := TicketRow(TicketOf(Name(2 * n + 2), 2 * n + 1, n), true)],
               receipts := t.receipts + [undo])
  {
    hide Inv, RowError, Name, Find, Initialize, BeginAction, EndAction, Reconcile, SavePrepared, ReserveBoundary,
      ConsumeBoundary, ActivatePrepared;
    Readable(t);
    assert Find(t.receipts, ById(SCOPE, Name(2 * n + 1))) == Some(r);
    assert Find(t.receipts, RollbackByOperation(SCOPE, Name(n + 1))).None?;
    undo := Rollback(Name(2 * n + 2), r.id, SCOPE, Name(n + 1), Name(2 * n + 2), REQUEST,
                     r.oldBinding.(generation := 2 * n + 2), 2 * n + 1, 2 * n + 2);
  }

  lemma UndoStep(t: Tables, n: nat, r: Receipt)
    requires Finished(t, n, 2 * n + 1) && Bounded(t, n + 1, 2 * n + 2, n + 1, 2 * n + 1) && MovedBy(t, n, r)
    requires Pending(t, n, Name(2 * n + 2), 2 * n + 1)
    ensures Ready(Apply(t, Undoing(n)), n + 1)
  {
    hide Inv, Apply, Name, TicketOf;
    var _ := UndoApplied(t, n, r);
    ApplyKeeps(t, Undoing(n));
  }

  /** One more action, activation and rollback. */
  lemma Cycle(es: seq<Event>, n: nat) returns (es': seq<Event>)
    requires Ready(Exec(EMPTY, es), n)
    ensures Ready(Exec(EMPTY, es'), n + 1)
  {
    hide Inv, Apply, Exec, Name, TicketOf, Record, Finished, Unmoved, MovedBy, Stored, Begun, Ready;
    var t := Exec(EMPTY, es);
    BeginStep(t, n);
    es' := es + [BeginEvent(SCOPE, Name(n + 1), REQUEST)];
    ExecAppend(es, BeginEvent(SCOPE, Name(n + 1), REQUEST));
    EndStep(Exec(EMPTY, es'), n);
    ExecAppend(es', Ending(n));
    es' := es' + [Ending(n)];
    es' := MoveOn(es', n);
    es' := MoveBack(es', n);
  }

  lemma MoveOn(es: seq<Event>, n: nat) returns (es': seq<Event>)
    requires var t := Exec(EMPTY, es); Finished(t, n, 2 * n) && Bounded(t, n + 1, 2 * n, n, 2 * n) && Unmoved(t, n)
    ensures var t := Exec(EMPTY, es');
            Finished(t, n, 2 * n + 1) && Bounded(t, n + 1, 2 * n + 1, n + 1, 2 * n + 1) && exists r :: MovedBy(t, n, r)
  {
    hide Inv, Apply, Exec, Name, TicketOf, Record, MovedBy, Begun, Ready;
    var t := Exec(EMPTY, es);
    var prepare := PrepareEvent(Record(t.scopes[SCOPE].active, n));
    var reserve := ReserveEvent(SCOPE, Name(n + 1), 2 * n, 1, Name(2 * n + 1), 0);
    PrepareStep(t, n);
    ExecAppend(es, prepare);
    var t1 := Apply(t, prepare);
    ReserveStep(t1, n, Name(2 * n + 1), 2 * n);
    ExecAppend(es + [prepare], reserve);
    var t2 := Apply(t1, reserve);
    ActivateStep(t2, n);
    ExecAppend(es + [prepare] + [reserve], Activating(n));
    es' := es + [prepare] + [reserve] + [Activating(n)];
  }

  lemma MoveBack(es: seq<Event>, n: nat) returns (es': seq<Event>)
    requires var t := Exec(EMPTY, es);
             Finished(t, n, 2 * n + 1) && Bounded(t, n + 1, 2 * n + 1, n + 1, 2 * n + 1) && exists r :: MovedBy(t, n, r)
    ensures Ready(Exec(EMPTY, es'), n + 1)
  {
    hide Inv, Apply, Exec, Name, TicketOf, Record, Begun, Ready, Finished;
    var t := Exec(EMPTY, es);
    var r :| MovedBy(t, n, r);
    var reserve := ReserveEvent(SCOPE, Name(n + 1), 2 * n + 1, 1, Name(2 * n + 2), 0);
    ReserveStep(t, n, Name(2 * n + 2), 2 * n + 1);
    ExecAppend(es, reserve);
    UndoStep(Apply(t, reserve), n, r);
    ExecAppend(es + [reserve], Undoing(n));
    es' := es + [reserve] + [Undoing(n)];
  }

  /** For every number of actions some run reaches the bound: each operation is activated and rolled back. */
  lemma {:induction false} BoundReached(n: nat) returns (es: seq<Event>)
    ensures SCOPE in Exec(EMPTY, es).scopes
    ensures Exec(EMPTY, es).scopes[SCOPE].epoch == n && Exec(EMPTY, es).scopes[SCOPE].generation == 2 * n
  {
    hide Inv, Exec;
    es := Cycles(n);
  }

  lemma {:induction false} Cycles(n: nat) returns (es: seq<Event>)
    ensures Ready(Exec(EMPTY, es), n)
  {
    hide Inv, Exec, Ready;
    if n == 0 {
      es := Start();
    } else {
      es := Cycles(n - 1);
      es := Cycle(es, n - 1);
    }
  }
}
