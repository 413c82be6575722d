/**
 What holds over every run of the runtime store: any clients, any interleaving, any clock,
 any generated ids and any answers from the external validators.
 */
module StoreRuns {
  import opened Common
  import opened RuntimeModels
  import opened StoreSpec
  import opened StoreInvariant

  // ------------------------------------------------------ how one step moves a pointer

  /** A receipt was committed for the scope, and nothing else about the scope row changed. */
  ghost predicate Moved(t: Tables, t': Tables, s: ScopeId, r: Receipt)
    requires s in t.scopes && s in t'.scopes
  {
    var row := t.scopes[s];
    && r.scope == s
    && r.before == row.generation
    && t'.receipts == t.receipts + [r]
    && row.state.Idle?
    && t'.scopes[s] == row.(active := r.Target(), generation := row.generation + 1)
    && t'.actions == t.actions
    && ActionKey(s, r.operation) in t.actions
    && t.actions[ActionKey(s, r.operation)].epoch == row.epoch
    && r.ticket in t.tickets
    && !t.tickets[r.ticket].consumed
    && (r.Activation? ==> r.oldBinding == row.active)
  }

  ghost predicate Stayed(t: Tables, t': Tables, s: ScopeId)
    requires s in t.scopes && s in t'.scopes
  {
    && Ledger(t'.receipts, s) == Ledger(t.receipts, s)
    && t'.scopes[s].active == t.scopes[s].active
    && t'.scopes[s].generation == t.scopes[s].generation
  }

  /** Every transaction either leaves the pointer of a scope alone or commits one receipt for it while it is idle. */
  lemma PointerStep(t: Tables, e: Event, s: ScopeId)
    requires Inv(t) && s in t.scopes
    ensures var t' := Apply(t, e);
            && s in t'.scopes
            && (Stayed(t, t', s) || (exists r :: Moved(t, t', s, r)))
  {
    hide Inv, Apply, Stayed, Moved;
    if e.ActivateEvent? {
      ActivateMoves(t, e, s);
    } else if e.RollbackEvent? {
      RollbackMoves(t, e, s);
    } else {
      NonCommitStep(t, e, s);
    }
  }

  lemma ActivateMoves(t: Tables, e: Event, s: ScopeId)
    requires s in t.scopes && e.ActivateEvent?
    ensures var t' := Apply(t, e);
            s in t'.scopes && (Stayed(t, t', s) || (exists r :: Moved(t, t', s, r)))
  {
    hide RowConsistent, Ledger, Find, RollbackReceipt, Initialize, BeginAction, EndAction, Reconcile, ReserveBoundary,
      ConsumeBoundary, SavePrepared;
    var outcome := ActivatePrepared(t, e.s, e.prepared, e.ticket, e.approval, e.authorized, e.id, e.now);
    if outcome.Done? && outcome.tables != t {
      CommitStep(t, outcome.tables, s, e.s, outcome.value);
    }
  }

  lemma RollbackMoves(t: Tables, e: Event, s: ScopeId)
    requires s in t.scopes && e.RollbackEvent?
    ensures var t' := Apply(t, e);
            s in t'.scopes && (Stayed(t, t', s) || (exists r :: Moved(t, t', s, r)))
  {
    hide RowConsistent, Ledger, Find, ActivatePrepared, Initialize, BeginAction, EndAction, Reconcile, ReserveBoundary,
      ConsumeBoundary, SavePrepared;
    var outcome := RollbackReceipt(t, e.s, e.source, e.ticket, e.authorized, e.id, e.now);
    if outcome.Done? && outcome.tables != t {
      CommitStep(t, outcome.tables, s, e.s, outcome.value);
    }
  }

  lemma NonCommitStep(t: Tables, e: Event, s: ScopeId)
    requires s in t.scopes && !e.ActivateEvent? && !e.RollbackEvent?
    ensures s in Apply(t, e).scopes && Stayed(t, Apply(t, e), s)
  {
    hide RowConsistent, Ledger, ActivatePrepared, RollbackReceipt;
  }

  lemma CommitStep(t: Tables, t': Tables, s: ScopeId, s': ScopeId, r: Receipt)
    requires s in t.scopes && s' in t.scopes && s in t'.scopes && s' in t'.scopes
    requires Moved(t, t', s', r) && (s != s' ==> t'.scopes[s] == t.scopes[s])
    ensures Stayed(t, t', s) || (exists r :: Moved(t, t', s, r))
  {
    if s != s' {
      LedgerAppend(t.receipts, r, s);
      assert Ledger(t'.receipts, s) == Ledger(t.receipts, s);
    }
  }

  // ----------------------------------------------------------------- the gapless ledger

  /** Replays a ledger from a bootstrap binding; undefined if an entry does not start where the last one ended. */
  function Replay(b: Binding, ledger: seq<Receipt>): Option<Binding>
    decreases |ledger|
  {
    if ledger == [] then Some(b)
    else
      var r := ledger[|ledger| - 1];
      var previous := Replay(b, ledger[..|ledger| - 1]);
      if previous.None? || previous.value.generation != r.before then None
      else if r.Activation? && r.oldBinding != previous.value then None
      else Some(r.Target())
  }

  /** The binding the scope was bootstrapped with in a run, if it was. */
  function BootstrapOf(es: seq<Event>, s: ScopeId): Option<Binding>
    decreases |es|
  {
    if es == [] then None
    else
      var before := es[..|es| - 1];
      var e := es[|es| - 1];
      if BootstrapOf(before, s).Some? then BootstrapOf(before, s)
      else if e.InitializeEvent? && e.s == s &&
              Initialize(Exec(EMPTY, before), s, e.binding, e.bootstrap, e.valid).Done?
      then Some(e.binding)
      else None
  }

  /**
   In every reachable state the receipts of a scope are a gapless ledger: exactly one receipt
   leaves each generation below the current one, and replaying them from the bootstrap
   binding of the run gives exactly the stored active binding.
   */
  lemma {:induction false} GaplessLedger(es: seq<Event>, s: ScopeId)
    ensures var t := Exec(EMPTY, es);
            s in t.scopes <==> BootstrapOf(es, s).Some?
    ensures var t := Exec(EMPTY, es);
            s in t.scopes ==>
              && |Ledger(t.receipts, s)| == t.scopes[s].generation
              && (forall g | 0 <= g < t.scopes[s].generation ::
                    forall r | r in t.receipts && r.scope == s :: r.before == g <==> r == Ledger(t.receipts, s)[g])
              && (forall r | r in t.receipts && r.scope == s :: r.before < t.scopes[s].generation)
              && Replay(BootstrapOf(es, s).value, Ledger(t.receipts, s)) == Some(t.scopes[s].active)
              && BootstrapOf(es, s).value.generation == 0
    decreases |es|
  {
    hide Inv, Ledger, Replay, Apply;
    var t := Exec(EMPTY, es);
    ReachableOk(es);
    if es == [] {
    } else {
      var before := es[..|es| - 1];
      GaplessLedger(before, s);
      ReplayStep(before, es[|es| - 1], s);
      assert before + [es[|es| - 1]] == es;
    }
    if s in t.scopes {
      LedgerIndexed(t, s);
    }
  }

  lemma LedgerIndexed(t: Tables, s: ScopeId)
    requires Inv(t) && s in t.scopes
    ensures |Ledger(t.receipts, s)| == t.scopes[s].generation
    ensures forall g | 0 <= g < t.scopes[s].generation ::
              forall r | r in t.receipts && r.scope == s :: r.before == g <==> r == Ledger(t.receipts, s)[g]
    ensures forall r | r in t.receipts && r.scope == s :: r.before < t.scopes[s].generation
  {
    hide ActionsOk, Ledger, EntryOk;
    assert ScopeOk(t, s);
    var ledger := Ledger(t.receipts, s);
    forall g | 0 <= g < |ledger|
      ensures ledger[g] in ledger && ledger[g].before == g
    {
      EntryBefore(t, ledger, g);
    }
    forall r | r in t.receipts && r.scope == s
      ensures r.before < |ledger| && ledger[r.before] == r
    {
      AtItsGeneration(t, r);
    }
  }

  lemma EntryBefore(t: Tables, ledger: seq<Receipt>, g: nat)
    requires g < |ledger| && EntryOk(t, ledger, g)
    ensures ledger[g].before == g
  {
  }

  lemma ReplayStep(before: seq<Event>, e: Event, s: ScopeId)
    requires s in Exec(EMPTY, before).scopes <==> BootstrapOf(before, s).Some?
    requires var t := Exec(EMPTY, before);
             s in t.scopes ==>
               && Replay(BootstrapOf(before, s).value, Ledger(t.receipts, s)) == Some(t.scopes[s].active)
               && BootstrapOf(before, s).value.generation == 0
    ensures var t := Exec(EMPTY, before + [e]);
            && (s in t.scopes <==> BootstrapOf(before + [e], s).Some?)
            && (s in t.scopes ==>
                  && Replay(BootstrapOf(before + [e], s).value, Ledger(t.receipts, s)) == Some(t.scopes[s].active)
                  && BootstrapOf(before + [e], s).value.generation == 0)
  {
    hide Apply, Inv, Initialize, Ledger;
    var t := Exec(EMPTY, before);
    assert (before + [e])[..|before|] == before;
    ReachableOk(before);
    if s in t.scopes {
      ReplayMove(t, e, s, BootstrapOf(before, s).value);
    } else if s in Apply(t, e).scopes {
      BootstrapStep(t, e, s);
    } else {
      NotBootstrapped(t, e, s);
    }
  }

  /** If the ledger replays to the active binding before a transaction, it does so after it. */
  lemma ReplayMove(t: Tables, e: Event, s: ScopeId, b: Binding)
    requires Inv(t) && s in t.scopes && Replay(b, Ledger(t.receipts, s)) == Some(t.scopes[s].active)
    ensures s in Apply(t, e).scopes
    ensures Replay(b, Ledger(Apply(t, e).receipts, s)) == Some(Apply(t, e).scopes[s].active)
  {
    hide Apply, Ledger, LedgerOk, KeysOk;
    var t' := Apply(t, e);
    PointerStep(t, e, s);
    if !Stayed(t, t', s) {
      var r :| Moved(t, t', s, r);
      LedgerAppend(t.receipts, r, s);
      assert ScopeOk(t, s);
      GenerationStored(t, s);
      ReplayAppend(b, Ledger(t.receipts, s), r);
    }
  }

  lemma ReplayAppend(b: Binding, ledger: seq<Receipt>, r: Receipt)
    requires Replay(b, ledger).Some? && Replay(b, ledger).value.generation == r.before
    requires r.Activation? ==> r.oldBinding == Replay(b, ledger).value
    ensures Replay(b, ledger + [r]) == Some(r.Target())
  {
    assert (ledger + [r])[..|ledger|] == ledger;
  }

  /** Only a successful initialization creates a scope, and it starts it with an empty ledger. */
  lemma BootstrapStep(t: Tables, e: Event, s: ScopeId)
    requires Inv(t) && s !in t.scopes && s in Apply(t, e).scopes
    ensures e.InitializeEvent? && e.s == s && Initialize(t, s, e.binding, e.bootstrap, e.valid).Done?
    ensures var t' := Apply(t, e);
            Ledger(t'.receipts, s) == [] && t'.scopes[s].active == e.binding && e.binding.generation == 0
  {
    hide ScopeOk;
    NoReceipts(t, s);
    if !e.InitializeEvent? {
      NoNewScope(t, e);
    }
    hide RowConsistent, Inv, Ledger;
  }

  lemma NoNewScope(t: Tables, e: Event)
    requires !e.InitializeEvent?
    ensures Apply(t, e).scopes.Keys == t.scopes.Keys
  {
    hide RowConsistent, Find;
  }

  lemma NotBootstrapped(t: Tables, e: Event, s: ScopeId)
    requires s !in Apply(t, e).scopes
    ensures !(e.InitializeEvent? && e.s == s && Initialize(t, s, e.binding, e.bootstrap, e.valid).Done?)
  {
  }

  // -------------------------------------------------------------- operations and epochs

  /** Entry g of a ledger belongs to an epoch of which at most two entries precede or equal it. */
  lemma {:induction false} EntryBound(t: Tables, s: ScopeId, g: nat)
    requires s in t.scopes && ScopeOk(t, s) && g < |Ledger(t.receipts, s)|
    ensures var r := Ledger(t.receipts, s)[g];
            g + 1 <= 2 * EpochOf(t, r) - (if r.Activation? then 1 else 0)
  {
    var ledger := Ledger(t.receipts, s);
    assert ledger[g] in ledger;
    assert EntryOk(t, ledger, g);
    if g > 0 {
      assert ledger[g - 1] in ledger;
      EntryBound(t, s, g - 1);
    }
  }

  /**
   Over every run the generation is at most twice the number of actions ever begun: each
   operation contributes at most one activation and one rollback.
   */
  lemma GenerationBound(es: seq<Event>, s: ScopeId)
    requires s in Exec(EMPTY, es).scopes
    ensures var row := Exec(EMPTY, es).scopes[s]; row.generation <= 2 * row.epoch
  {
    var t := Exec(EMPTY, es);
    ReachableOk(es);
    assert ScopeOk(t, s);
    var ledger := Ledger(t.receipts, s);
    if ledger != [] {
      EntryBound(t, s, |ledger| - 1);
      assert ledger[|ledger| - 1] in ledger;
      assert EntryOk(t, ledger, |ledger| - 1);
      assert ActionKey(s, ledger[|ledger| - 1].operation) in t.actions;
    }
  }

  /** In every reachable state the epochs of a scope number its actions 1, 2, ..., epoch without gaps or repeats. */
  lemma EpochsAreABijection(es: seq<Event>, s: ScopeId)
    requires s in Exec(EMPTY, es).scopes
    ensures var t := Exec(EMPTY, es);
            && (forall k | k in t.actions && k.scope == s :: 1 <= t.actions[k].epoch <= t.scopes[s].epoch)
            && (forall k, k' | k in t.actions && k' in t.actions && k.scope == k'.scope == s ::
                  t.actions[k].epoch == t.actions[k'].epoch ==> k == k')
            && (forall e | 1 <= e <= t.scopes[s].epoch :: HasAction(t, s, e))
  {
    ReachableOk(es);
    assert ScopeOk(Exec(EMPTY, es), s);
    hide LedgerOk, Exec;
  }

  /** Every receipt belongs to a recorded operation, which has at most one activation and one rollback. */
  lemma OneMoveOfEachKind(es: seq<Event>, r1: Receipt, r2: Receipt)
    requires r1 in Exec(EMPTY, es).receipts && r2 in Exec(EMPTY, es).receipts
    requires r1.scope == r2.scope && r1.operation == r2.operation && r1.Activation? == r2.Activation?
    ensures r1 == r2 && ActionKey(r1.scope, r1.operation) in Exec(EMPTY, es).actions
  {
    var t := Exec(EMPTY, es);
    ReachableOk(es);
    assert ScopeOk(t, r1.scope);
    AtItsGeneration(t, r1);
    if r1.Activation? {
      ActivationUnique(t, r1, r2);
    } else {
      RollbackUnique(t, r1, r2);
    }
  }

  /** Once the epoch of a scope has moved past an operation, no run ever adds a receipt for it. */
  lemma {:induction false} SealedForever(t: Tables, es: seq<Event>, key: ActionKey)
    requires Inv(t) && key in t.actions && key.scope in t.scopes
    requires t.actions[key].epoch < t.scopes[key.scope].epoch
    ensures var t' := Exec(t, es);
            && key in t'.actions && key.scope in t'.scopes
            && t'.actions[key].epoch < t'.scopes[key.scope].epoch
            && forall r | r in t'.receipts && r.scope == key.scope && r.operation == key.operation :: r in t.receipts
    decreases |es|
  {
    if es == [] {
    } else {
      var before := es[..|es| - 1];
      SealedForever(t, before, key);
      ExecKeeps(t, before);
      SealedStep(Exec(t, before), es[|es| - 1], key);
    }
  }

  lemma SealedStep(t: Tables, e: Event, key: ActionKey)
    requires Inv(t) && key in t.actions && key.scope in t.scopes
    requires t.actions[key].epoch < t.scopes[key.scope].epoch
    ensures var t' := Apply(t, e);
            && key in t'.actions && key.scope in t'.scopes
            && t'.actions[key].epoch < t'.scopes[key.scope].epoch
            && forall r | r in t'.receipts && r.scope == key.scope && r.operation == key.operation :: r in t.receipts
  {
    hide Inv, Apply, Ledger;
    var t' := Apply(t, e);
    ApplyKeeps(t, e);
    PointerStep(t, e, key.scope);
    EpochGrows(t, e, key.scope);
    if Stayed(t, t', key.scope) {
      forall r | r in t'.receipts && r.scope == key.scope ensures r in t.receipts {
        assert r in Ledger(t'.receipts, key.scope);
      }
    }
  }

  lemma EpochGrows(t: Tables, e: Event, s: ScopeId)
    requires s in t.scopes
    ensures s in Apply(t, e).scopes && t.scopes[s].epoch <= Apply(t, e).scopes[s].epoch
  {
    hide RowConsistent;
  }

  /** The newest pointer move of the scope in t, the activation with the given id, is undone in t'. */
  ghost predicate Undoes(t: Tables, t': Tables, s: ScopeId, sourceId: string) {
    var ledger := Ledger(t.receipts, s);
    && s in t.scopes && s in t'.scopes
    && ledger != []
    && var undone := ledger[|ledger| - 1];
    && undone.Activation? && undone.id == sourceId
    && t.scopes[s].active == undone.newBinding
    && t'.scopes[s].active == undone.oldBinding.(generation := undone.oldBinding.generation + 2)
    && t'.scopes[s].generation == undone.before + 2
    && (|ledger| > 1 ==> undone.oldBinding == ledger[|ledger| - 2].Target())
  }

  /**
   A committed rollback undoes the immediately preceding pointer move: the newest ledger entry
   is the activation it names, and the pointer returns to the capsule, view and input from
   before that activation, two generations later.
   */
  lemma RollbackUndoesLastMove(t: Tables, s: ScopeId, sourceId: string, ticket: Ticket,
                               authorized: bool, receiptId: string, now: Instant, t': Tables, r: Receipt)
    requires Inv(t) && t' != t
    requires RollbackReceipt(t, s, sourceId, ticket, authorized, receiptId, now) == Done(t', r)
    ensures Undoes(t, t', s, sourceId)
  {
    hide RowConsistent, ActionsOk, KeysOk, Ledger;
    assert ScopeOk(t, s);
    AtItsGeneration(t, Find(t.receipts, ById(s, sourceId)).value);
  }

  // ----------------------------------------------------------------- the action automaton

  /** Every state reachable through the public transactions passes the self-consistency test of each scope row. */
  lemma RowNeverRejected(es: seq<Event>, s: ScopeId)
    requires s in Exec(EMPTY, es).scopes
    ensures RowConsistent(Exec(EMPTY, es), s)
  {
    ReachableOk(es);
    assert ScopeOk(Exec(EMPTY, es), s);
    RowAccepted(Exec(EMPTY, es), s);
  }

  /** At most one action of a scope is unfinished, and it carries the epoch and state of the scope row. */
  lemma OneUnfinishedAction(es: seq<Event>, k: ActionKey, k': ActionKey)
    requires k in Exec(EMPTY, es).actions && k' in Exec(EMPTY, es).actions && k.scope == k'.scope
    requires !Exec(EMPTY, es).actions[k].state.Idle? && !Exec(EMPTY, es).actions[k'].state.Idle?
    ensures var t := Exec(EMPTY, es);
            && k == k'
            && k.scope in t.scopes
            && t.actions[k].epoch == t.scopes[k.scope].epoch
            && t.actions[k].state == t.scopes[k.scope].state
            && (t.scopes[k.scope].state.Running? ==> t.scopes[k.scope].current == Some(k.operation))
            && (!t.scopes[k.scope].state.Running? ==> t.scopes[k.scope].current == None)
  {
    ReachableOk(es);
    assert ScopeOk(Exec(EMPTY, es), k.scope);
    hide LedgerOk;
  }

  /** While a scope is not idle, no transaction of any kind changes its binding, generation or epoch. */
  lemma BusyStep(t: Tables, e: Event, s: ScopeId)
    requires Inv(t) && s in t.scopes && !t.scopes[s].state.Idle?
    ensures var t' := Apply(t, e);
            && s in t'.scopes
            && t'.scopes[s].active == t.scopes[s].active
            && t'.scopes[s].generation == t.scopes[s].generation
            && t'.scopes[s].epoch == t.scopes[s].epoch
            && (t'.scopes[s].state.Idle? ==> e.Scope() == s && (e.EndEvent? || e.ReconcileEvent?))
  {
    hide RowConsistent, Inv, Ledger, Apply;
    PointerStep(t, e, s);
    BusyAutomaton(t, e, s);
  }

  /** The automaton of a scope that is not idle keeps its epoch and becomes idle only by an end or a reconciliation. */
  lemma BusyAutomaton(t: Tables, e: Event, s: ScopeId)
    requires s in t.scopes && !t.scopes[s].state.Idle?
    ensures var t' := Apply(t, e);
            && s in t'.scopes
            && t'.scopes[s].epoch == t.scopes[s].epoch
            && (t'.scopes[s].state.Idle? ==> e.Scope() == s && (e.EndEvent? || e.ReconcileEvent?))
  {
    hide RowConsistent, Find;
  }

  /**
   An action sees one binding for its whole life: as long as the scope has not returned to
   idle, whatever transactions interleave, the binding, generation and epoch are those
   the action began with.
   */
  lemma {:induction false} ActionSeesOneBinding(t: Tables, es: seq<Event>, s: ScopeId)
    requires Inv(t) && s in t.scopes && !t.scopes[s].state.Idle?
    requires forall i | 0 <= i < |es| :: s in Exec(t, es[..i]).scopes && !Exec(t, es[..i]).scopes[s].state.Idle?
    ensures var t' := Exec(t, es);
            && s in t'.scopes
            && t'.scopes[s].active == t.scopes[s].active
            && t'.scopes[s].generation == t.scopes[s].generation
            && t'.scopes[s].epoch == t.scopes[s].epoch
    decreases |es|
  {
    if es == [] {
    } else {
      var before := es[..|es| - 1];
      assert forall i | 0 <= i < |before| :: before[..i] == es[..i];
      ActionSeesOneBinding(t, before, s);
      ExecKeeps(t, before);
      BusyStep(Exec(t, before), es[|es| - 1], s);
    }
  }

  /** The lease of a begun action starts such a stretch with the binding that was active before it. */
  lemma BeginKeepsBinding(t: Tables, s: ScopeId, operation: OperationId, request: Digest, t': Tables, lease: Lease)
    requires BeginAction(t, s, operation, request) == Done(t', lease) && lease.state.Running?
    ensures s in t.scopes && s in t'.scopes && t'.scopes[s].state.Running?
    ensures t'.scopes[s].active == t.scopes[s].active
    ensures lease.epoch == t'.scopes[s].epoch == t.scopes[s].epoch + 1
    ensures ActionKey(s, operation) !in t.actions
  {
    hide RowConsistent;
  }

  // ------------------------------------------------------------------------- tickets

  /** Receipts carry pairwise distinct tickets, each marked consumed and reserved for that very move. */
  lemma TicketsSpentOnce(es: seq<Event>, r1: Receipt, r2: Receipt)
    requires r1 in Exec(EMPTY, es).receipts && r2 in Exec(EMPTY, es).receipts
    ensures var t := Exec(EMPTY, es);
            && r1.ticket in t.tickets && t.tickets[r1.ticket].consumed
            && t.tickets[r1.ticket].ticket.scope == r1.scope
            && t.tickets[r1.ticket].ticket.operation == r1.operation
            && t.tickets[r1.ticket].ticket.expectedGeneration == r1.before
            && (r1.ticket == r2.ticket ==> r1 == r2)
  {
    var t := Exec(EMPTY, es);
    ReachableOk(es);
    assert ScopeOk(t, r1.scope) && ScopeOk(t, r2.scope);
    hide ActionsOk;
    AtItsGeneration(t, r1);
    AtItsGeneration(t, r2);
  }

  /** Of all tickets reserved for a scope at one generation, at most one ever moves the pointer. */
  lemma OneTicketPerGeneration(es: seq<Event>, r1: Receipt, r2: Receipt)
    requires r1 in Exec(EMPTY, es).receipts && r2 in Exec(EMPTY, es).receipts
    requires var t := Exec(EMPTY, es);
             && r1.ticket in t.tickets && r2.ticket in t.tickets
             && t.tickets[r1.ticket].ticket.scope == t.tickets[r2.ticket].ticket.scope
             && t.tickets[r1.ticket].ticket.expectedGeneration == t.tickets[r2.ticket].ticket.expectedGeneration
    ensures r1 == r2
  {
    var t := Exec(EMPTY, es);
    TicketsSpentOnce(es, r1, r2);
    TicketsSpentOnce(es, r2, r1);
    ReachableOk(es);
    assert ScopeOk(t, r1.scope);
    hide ActionsOk;
    AtItsGeneration(t, r1);
    AtItsGeneration(t, r2);
  }

  /**
   A consumed ticket moves no pointer again: in no continuation is it usable, and none adds a
   receipt that carries it.
   */
  lemma {:induction false} ConsumedStaysConsumed(t: Tables, es: seq<Event>, id: string)
    requires Inv(t) && id in t.tickets && t.tickets[id].consumed
    ensures forall r | r in Exec(t, es).receipts && r.ticket == id :: r in t.receipts
    ensures forall ticket: Ticket, s, now | ticket.id == id && s in Exec(t, es).scopes ::
              !TicketUsable(Exec(t, es), s, ticket, now)
    decreases |es|
  {
    hide Inv, Apply;
    ExecKeeps(t, es);
    if es == [] {
    } else {
      var before := es[..|es| - 1];
      ConsumedStaysConsumed(t, before, id);
      ExecKeeps(t, before);
      NoReceiptFor(Exec(t, before), es[|es| - 1], id);
    }
  }

  /** One transaction adds no receipt for a consumed ticket. */
  lemma NoReceiptFor(t: Tables, e: Event, id: string)
    requires Inv(t) && id in t.tickets && t.tickets[id].consumed
    ensures forall r | r in Apply(t, e).receipts && r.ticket == id :: r in t.receipts
  {
    hide Inv, Apply, Ledger;
    ApplyKeeps(t, e);
    forall r | r in Apply(t, e).receipts && r.ticket == id ensures r in t.receipts {
      KnownScope(Apply(t, e), r);
      if r.scope in t.scopes {
        PointerStep(t, e, r.scope);
        if Stayed(t, Apply(t, e), r.scope) {
          assert r in Ledger(Apply(t, e).receipts, r.scope);
        }
      } else {
        NoReceiptInNewScope(t, e, r);
      }
    }
  }

  lemma KnownScope(t: Tables, r: Receipt)
    requires Inv(t) && r in t.receipts
    ensures r.scope in t.scopes
  {
    hide ScopeOk;
  }

  lemma NoReceiptInNewScope(t: Tables, e: Event, r: Receipt)
    requires r.scope !in t.scopes && r in Apply(t, e).receipts
    ensures r in t.receipts
  {
    hide RowConsistent, Find, TicketFor;
  }

  // ----------------------------------------------------------------------- isolation

  /** Everything the tables record about one scope is the same. */
  ghost predicate SameScope(t: Tables, t': Tables, s: ScopeId) {
    && (s in t.scopes <==> s in t'.scopes)
    && (s in t.scopes ==> t'.scopes[s] == t.scopes[s])
    && (forall k: ActionKey | k.scope == s ::
          (k in t.actions <==> k in t'.actions) && (k in t.actions ==> t'.actions[k] == t.actions[k]))
    && (forall id | id in t.tickets && t.tickets[id].ticket.scope == s ::
        id in t'.tickets && t'.tickets[id] == t.tickets[id])
    && (forall id | id in t'.tickets && t'.tickets[id].ticket.scope == s ::
        id in t.tickets && t'.tickets[id] == t.tickets[id])
    && (forall id | id in t.prepared && t.prepared[id].scope == s ::
        id in t'.prepared && t'.prepared[id] == t.prepared[id])
    && (forall id | id in t'.prepared && t'.prepared[id].scope == s ::
        id in t.prepared && t'.prepared[id] == t.prepared[id])
    && Ledger(t'.receipts, s) == Ledger(t.receipts, s)
  }

  /** A transaction on one scope leaves every row of every other scope unchanged. */
  lemma OtherScopesUntouched(t: Tables, e: Event, s: ScopeId)
    requires e.Scope() != s
    ensures SameScope(t, Apply(t, e), s)
  {
    hide RowConsistent, Ledger, Find, SameScope;
    SameScopeRefl(t, s);
    match e {
      case ActivateEvent(s', prepared, ticket, approval, authorized, id, now) =>
        var outcome := ActivatePrepared(t, s', prepared, ticket, approval, authorized, id, now);
        if outcome.Done? && outcome.tables != t {
          CommitElsewhere(t, s', ticket, outcome.value, outcome.tables, s);
        }
      case RollbackEvent(s', source, ticket, authorized, id, now) =>
        var outcome := RollbackReceipt(t, s', source, ticket, authorized, id, now);
        if outcome.Done? && outcome.tables != t {
          CommitElsewhere(t, s', ticket, outcome.value, outcome.tables, s);
        }
      case _ =>
        hide ActivatePrepared, RollbackReceipt;
        OtherWriteElsewhere(t, e, s);
    }
  }

  lemma SameScopeRefl(t: Tables, s: ScopeId)
    ensures SameScope(t, t, s)
  {
  }

  lemma CommitElsewhere(t: Tables, s': ScopeId, ticket: Ticket, r: Receipt, t': Tables, s: ScopeId)
    requires s' in t.scopes && s' != s && ticket.scope == s' && r.scope == s'
    requires ticket.id in t.tickets && t.tickets[ticket.id].ticket == ticket
    requires Commit(t, s', ticket, r) == Done(t', r)
    ensures SameScope(t, t', s)
  {
    LedgerAppend(t.receipts, r, s);
    hide Ledger;
  }

  lemma OtherWriteElsewhere(t: Tables, e: Event, s: ScopeId)
    requires e.Scope() != s && !e.ActivateEvent? && !e.RollbackEvent?
    ensures SameScope(t, Apply(t, e), s)
  {
    hide SameScope, Apply;
    if e.ReserveEvent? || e.ConsumeEvent? || e.PrepareEvent? {
      RecordWriteElsewhere(t, e, s);
    } else {
      RowWriteElsewhere(t, e, s);
    }
  }

  lemma RecordWriteElsewhere(t: Tables, e: Event, s: ScopeId)
    requires e.Scope() != s && (e.ReserveEvent? || e.ConsumeEvent? || e.PrepareEvent?)
    ensures SameScope(t, Apply(t, e), s)
  {
    hide RowConsistent, Ledger, ActivatePrepared, RollbackReceipt, BeginAction, EndAction, Reconcile, Initialize;
  }

  lemma RowWriteElsewhere(t: Tables, e: Event, s: ScopeId)
    requires e.Scope() != s && (e.InitializeEvent? || e.BeginEvent? || e.EndEvent? || e.ReconcileEvent?)
    ensures SameScope(t, Apply(t, e), s)
  {
    hide SameScope, Apply;
    if e.InitializeEvent? || e.BeginEvent? {
      StartWriteElsewhere(t, e, s);
    } else {
      FinishWriteElsewhere(t, e, s);
    }
  }

  lemma StartWriteElsewhere(t: Tables, e: Event, s: ScopeId)
    requires e.Scope() != s && (e.InitializeEvent? || e.BeginEvent?)
    ensures SameScope(t, Apply(t, e), s)
  {
    hide RowConsistent, Ledger, ActivatePrepared, RollbackReceipt, ReserveBoundary, ConsumeBoundary, SavePrepared,
      EndAction, Reconcile;
  }

  lemma FinishWriteElsewhere(t: Tables, e: Event, s: ScopeId)
    requires e.Scope() != s && (e.EndEvent? || e.ReconcileEvent?)
    ensures SameScope(t, Apply(t, e), s)
  {
    hide RowConsistent, Ledger, ActivatePrepared, RollbackReceipt, ReserveBoundary, ConsumeBoundary, SavePrepared,
      Initialize, BeginAction;
  }
}
