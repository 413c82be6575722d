/**
 What every transaction of the runtime store keeps.

 The guards that make the protocol safe are spread over several transactions; the facts
 below hold together or not at all, and are proved inductive event by event.
 */
module StoreInvariant {
  import opened Common
  import opened RuntimeModels
  import opened StoreSpec

  // ------------------------------------------------------------ the scope ledger

  /** The receipts of one scope, oldest first. */
  function Ledger(rs: seq<Receipt>, s: ScopeId): (ledger: seq<Receipt>)
    ensures forall r :: r in ledger <==> r in rs && r.scope == s
  {
    if rs == [] then []
    else
      var last := rs[|rs| - 1];
      assert forall r :: r in rs <==> r in rs[..|rs| - 1] || r == last by {
        assert rs == rs[..|rs| - 1] + [last];
      }
      Ledger(rs[..|rs| - 1], s) + (if last.scope == s then [last] else [])
  }

  lemma LedgerAppend(rs: seq<Receipt>, r: Receipt, s: ScopeId)
    ensures Ledger(rs + [r], s) == Ledger(rs, s) + (if r.scope == s then [r] else [])
  {
    assert (rs + [r])[..|rs|] == rs;
  }

  // ------------------------------------------------------------------ invariants

  /** Rows refer only to initialised scopes and are stored under their own keys. */
  ghost predicate KeysOk(t: Tables) {
    && (forall k | k in t.actions :: k.scope in t.scopes && k.operation != "")
    && (forall id | id in t.tickets :: t.tickets[id].ticket.id == id && t.tickets[id].ticket.scope in t.scopes)
    && (forall id | id in t.prepared :: t.prepared[id].id == id && t.prepared[id].scope in t.scopes)
    && (forall r | r in t.receipts :: r.scope in t.scopes)
    && (forall i, j | 0 <= i < j < |t.receipts| :: t.receipts[i].id != t.receipts[j].id)
  }

  /**
   The action automaton of a scope: epochs are a bijection onto 1..epoch, every action of an
   earlier epoch is finished, and the action of the current epoch is in the state of the row.
   */
  ghost predicate ActionsOk(t: Tables, s: ScopeId)
    requires s in t.scopes
  {
    var row := t.scopes[s];
    && row.active.generation == row.generation
    && (row.state.Running? <==> row.current.Some?)
    && (row.epoch == 0 ==> row.state.Idle?)
    && (forall k | k in t.actions && k.scope == s ::
          && 1 <= t.actions[k].epoch <= row.epoch
          && (t.actions[k].epoch < row.epoch ==> t.actions[k].state.Idle?)
          && (t.actions[k].epoch == row.epoch ==>
                t.actions[k].state == row.state && (row.current.Some? ==> row.current.value == k.operation)))
    && (forall k, k' | k in t.actions && k' in t.actions && k.scope == s && k'.scope == s ::
          t.actions[k].epoch == t.actions[k'].epoch ==> k == k')
    && (forall e | 1 <= e <= row.epoch :: HasAction(t, s, e))
  }

  ghost predicate HasAction(t: Tables, s: ScopeId, e: int) {
    exists k :: k in t.actions && k.scope == s && t.actions[k].epoch == e
  }

  function EpochOf(t: Tables, r: Receipt): int {
    var k := ActionKey(r.scope, r.operation);
    if k in t.actions then t.actions[k].epoch else 0
  }

  /** Entry g of a ledger: it moved the pointer from generation g on behalf of a recorded operation. */
  ghost predicate EntryOk(t: Tables, ledger: seq<Receipt>, g: nat)
    requires g < |ledger|
  {
    var r := ledger[g];
    var k := ActionKey(r.scope, r.operation);
    && r.before == g
    && r.WellFormed()
    && k in t.actions
    && t.actions[k].request == r.request
    && r.ticket in t.tickets
    && t.tickets[r.ticket].consumed
    && t.tickets[r.ticket].ticket.scope == r.scope
    && t.tickets[r.ticket].ticket.operation == r.operation
    && t.tickets[r.ticket].ticket.expectedGeneration == g
    && match r {
      case Activation(_, _, _, _, _, _, _, _, _, _, _) =>
        && r.prepared in t.prepared
        && t.prepared[r.prepared].scope == r.scope
        && t.prepared[r.prepared].operation == r.operation
        && t.prepared[r.prepared].request == r.request
        && t.prepared[r.prepared].oldBinding == r.oldBinding
        && t.prepared[r.prepared].newBinding == r.newBinding
        && (g > 0 ==> ledger[g - 1].Target() == r.oldBinding && EpochOf(t, ledger[g - 1]) < EpochOf(t, r))
      case Rollback(_, _, _, _, _, _, _, _, _) =>
        && g > 0
        && ledger[g - 1].Activation?
        && ledger[g - 1].id == r.source
        && ledger[g - 1].operation == r.operation
        && ledger[g - 1].request == r.request
        && r.restored == ledger[g - 1].oldBinding.(generation := g + 1)
    }
  }

  ghost predicate LedgerOk(t: Tables, s: ScopeId)
    requires s in t.scopes
  {
    var row := t.scopes[s];
    var ledger := Ledger(t.receipts, s);
    && |ledger| == row.generation
    && (forall g | 0 <= g < |ledger| :: EntryOk(t, ledger, g))
    && (ledger != [] ==> ledger[|ledger| - 1].Target() == row.active)
  }

  ghost predicate ScopeOk(t: Tables, s: ScopeId)
    requires s in t.scopes
  {
    ActionsOk(t, s) && LedgerOk(t, s)
  }

  ghost predicate Inv(t: Tables) {
    KeysOk(t) && forall s | s in t.scopes :: ScopeOk(t, s)
  }

  // --------------------------------------------------- what the invariant gives

  /** The self-consistency test of a row never fires on tables that satisfy the invariant. */
  lemma RowAccepted(t: Tables, s: ScopeId)
    requires KeysOk(t) && s in t.scopes && ActionsOk(t, s)
    ensures RowConsistent(t, s) && RowError(t, s) == None
  {
    var row := t.scopes[s];
    if row.current.Some? {
      var k :| k in t.actions && k.scope == s && t.actions[k].epoch == row.epoch by {
        assert HasAction(t, s, row.epoch);
      }
      assert k == ActionKey(s, row.current.value);
      assert RunningOperations(t, s) == {row.current.value};
    }
  }

  /** Epochs never decrease along a ledger, and an activation always starts a new epoch. */
  lemma {:induction false} LedgerEpochs(t: Tables, s: ScopeId, i: nat, j: nat)
    requires s in t.scopes && LedgerOk(t, s)
    requires i < j < |Ledger(t.receipts, s)|
    ensures var ledger := Ledger(t.receipts, s);
            && EpochOf(t, ledger[i]) <= EpochOf(t, ledger[j])
            && (ledger[j].Activation? ==> EpochOf(t, ledger[i]) < EpochOf(t, ledger[j]))
    decreases j
  {
    var ledger := Ledger(t.receipts, s);
    assert ledger[j] in ledger && ledger[j - 1] in ledger;
    assert EntryOk(t, ledger, j);
    if i < j - 1 {
      LedgerEpochs(t, s, i, j - 1);
    }
  }

  /** A receipt of a scope sits in the ledger at the index of the generation it left. */
  lemma AtItsGeneration(t: Tables, r: Receipt)
    requires r in t.receipts && r.scope in t.scopes && LedgerOk(t, r.scope)
    ensures var ledger := Ledger(t.receipts, r.scope);
            r.before < |ledger| && ledger[r.before] == r && EntryOk(t, ledger, r.before)
  {
    var ledger := Ledger(t.receipts, r.scope);
    var i :| 0 <= i < |ledger| && ledger[i] == r;
    assert EntryOk(t, ledger, i);
  }

  /** An operation is activated at most once. */
  lemma ActivationUnique(t: Tables, r1: Receipt, r2: Receipt)
    requires r1.scope in t.scopes && LedgerOk(t, r1.scope)
    requires r1 in t.receipts && r2 in t.receipts && r1.Activation? && r2.Activation?
    requires r1.scope == r2.scope && r1.operation == r2.operation
    ensures r1 == r2
  {
    AtItsGeneration(t, r1);
    AtItsGeneration(t, r2);
    hide LedgerOk, EntryOk;
    if r1.before < r2.before {
      LedgerEpochs(t, r1.scope, r1.before, r2.before);
    } else if r2.before < r1.before {
      LedgerEpochs(t, r1.scope, r2.before, r1.before);
    }
  }

  /** A rollback is the successor of the activation it names. */
  lemma RollbackFollowsSource(t: Tables, r: Receipt, source: Receipt)
    requires r.scope in t.scopes && LedgerOk(t, r.scope) && r in t.receipts && source in t.receipts
    requires r.Rollback? && source.Activation? && r.scope == source.scope && r.operation == source.operation
    ensures r.before == source.before + 1 && r.source == source.id && r.request == source.request
  {
    AtItsGeneration(t, r);
    var ledger := Ledger(t.receipts, r.scope);
    assert EntryOk(t, ledger, r.before - 1);
    assert ledger[r.before - 1] in ledger;
    hide LedgerOk;
    ActivationUnique(t, ledger[r.before - 1], source);
  }

  /** An operation is rolled back at most once. */
  lemma RollbackUnique(t: Tables, r1: Receipt, r2: Receipt)
    requires r1.scope in t.scopes && LedgerOk(t, r1.scope)
    requires r1 in t.receipts && r2 in t.receipts && r1.Rollback? && r2.Rollback?
    requires r1.scope == r2.scope && r1.operation == r2.operation
    ensures r1 == r2
  {
    hide LedgerOk;
    AtItsGeneration(t, r1);
    AtItsGeneration(t, r2);
    var ledger := Ledger(t.receipts, r1.scope);
    var source := ledger[r1.before - 1];
    assert source in ledger;
    RollbackFollowsSource(t, r1, source);
    RollbackFollowsSource(t, r2, source);
  }

  // ------------------------------------------------------------------ preservation

  /** Rows that other rows of the scope depend on only ever gain information. */
  ghost predicate Grows(t: Tables, t': Tables) {
    && t.scopes.Keys <= t'.scopes.Keys
    && (forall k | k in t.actions :: k in t'.actions
          && t'.actions[k].request == t.actions[k].request && t'.actions[k].epoch == t.actions[k].epoch)
    && (forall id | id in t.tickets :: id in t'.tickets
          && t'.tickets[id].ticket == t.tickets[id].ticket && (t.tickets[id].consumed ==> t'.tickets[id].consumed))
    && (forall id | id in t.prepared :: id in t'.prepared && t'.prepared[id] == t.prepared[id])
    && t.receipts <= t'.receipts
  }

  lemma EntriesKept(t: Tables, t': Tables, s: ScopeId)
    requires s in t.scopes && LedgerOk(t, s) && Grows(t, t')
    ensures forall g | 0 <= g < |Ledger(t.receipts, s)| :: EntryOk(t', Ledger(t.receipts, s), g)
  {
    var ledger := Ledger(t.receipts, s);
    forall g | 0 <= g < |ledger| ensures EntryOk(t', ledger, g) {
      assert EntryOk(t, ledger, g);
      if g > 0 {
        assert EntryOk(t, ledger, g - 1);
      }
    }
  }

  /** A transaction that appends no receipt and moves no pointer keeps every ledger. */
  lemma PointersKept(t: Tables, t': Tables)
    requires Inv(t) && Grows(t, t') && KeysOk(t') && t'.receipts == t.receipts
    requires forall s | s in t.scopes ::
               t'.scopes[s].active == t.scopes[s].active && t'.scopes[s].generation == t.scopes[s].generation
    requires forall s | s in t'.scopes :: ActionsOk(t', s)
    requires forall s | s in t'.scopes && s !in t.scopes :: t'.scopes[s].generation == 0
    ensures Inv(t')
  {
    hide ActionsOk, EntryOk;
    forall s | s in t'.scopes ensures ScopeOk(t', s) {
      if s in t.scopes {
        assert ScopeOk(t, s);
        EntriesKept(t, t', s);
      } else {
        NoReceipts(t, s);
      }
    }
  }

  lemma NoReceipts(t: Tables, s: ScopeId)
    requires KeysOk(t) && s !in t.scopes
    ensures Ledger(t.receipts, s) == []
  {
    NonEmptyHasMember(Ledger(t.receipts, s));
  }

  lemma NonEmptyHasMember<T>(xs: seq<T>)
    ensures xs == [] || exists x :: x in xs
  {
    if xs != [] {
      assert xs[0] in xs;
    }
  }

  /** A transaction that leaves the action rows and the automaton of a scope alone keeps its actions. */
  lemma ActionsKept(t: Tables, t': Tables, s: ScopeId)
    requires s in t.scopes && s in t'.scopes && ActionsOk(t, s)
    requires t'.scopes[s].active.generation == t'.scopes[s].generation
    requires t'.scopes[s].state == t.scopes[s].state && t'.scopes[s].epoch == t.scopes[s].epoch
    requires t'.scopes[s].current == t.scopes[s].current
    requires forall k: ActionKey | k.scope == s ::
             (k in t'.actions <==> k in t.actions) && (k in t.actions ==> t'.actions[k] == t.actions[k])
    ensures ActionsOk(t', s)
  {
    forall e | 1 <= e <= t'.scopes[s].epoch ensures HasAction(t', s, e) {
      assert HasAction(t, s, e);
      var k :| k in t.actions && k.scope == s && t.actions[k].epoch == e;
      assert k in t'.actions && t'.actions[k].epoch == e;
    }
  }

  /** The automaton stays sound when one row is written: a new one for a new epoch, or the current one. */
  lemma ActionWritten(t: Tables, t': Tables, s: ScopeId, key: ActionKey, row: ScopeRow, action: ActionRow)
    requires KeysOk(t) && s in t.scopes && ActionsOk(t, s) && key.scope == s
    requires row.active == t.scopes[s].active && row.generation == t.scopes[s].generation
    requires row.epoch == action.epoch && row.state == action.state
    requires row.current == if row.state.Running? then Some(key.operation) else None
    requires if key in t.actions
             then action.epoch == t.actions[key].epoch == t.scopes[s].epoch
             else action.epoch == t.scopes[s].epoch + 1 && t.scopes[s].state.Idle?
    requires t' == t.(scopes := t.scopes[s := row], actions := t.actions[key := action])
    ensures ActionsOk(t', s)
  {
    forall e | 1 <= e <= row.epoch ensures HasAction(t', s, e) {
      if e <= t.scopes[s].epoch {
        assert HasAction(t, s, e);
        var k :| k in t.actions && k.scope == s && t.actions[k].epoch == e;
        assert t'.actions[k].epoch == e;
      } else {
        assert t'.actions[key].epoch == e;
      }
    }
  }

  lemma ActionWriteKeeps(t: Tables, t': Tables, s: ScopeId, key: ActionKey, row: ScopeRow, action: ActionRow)
    requires Inv(t) && s in t.scopes && key.scope == s && key.operation != ""
    requires row.active == t.scopes[s].active && row.generation == t.scopes[s].generation
    requires row.epoch == action.epoch && row.state == action.state
    requires row.current == if row.state.Running? then Some(key.operation) else None
    requires if key in t.actions
             then action.epoch == t.actions[key].epoch == t.scopes[s].epoch && action.request == t.actions[key].request
             else action.epoch == t.scopes[s].epoch + 1 && t.scopes[s].state.Idle?
    requires t' == t.(scopes := t.scopes[s := row], actions := t.actions[key := action])
    ensures Inv(t') && Grows(t, t')
  {
    hide ActionsOk, LedgerOk;
    assert KeysOk(t') && Grows(t, t');
    forall s' | s' in t'.scopes ensures ActionsOk(t', s') {
      assert ScopeOk(t, s');
      if s' != s {
        GenerationStored(t, s');
        ActionsKept(t, t', s');
      } else {
        ActionWritten(t, t', s, key, row, action);
      }
    }
    hide KeysOk, Grows;
    PointersKept(t, t');
  }

  lemma GenerationStored(t: Tables, s: ScopeId)
    requires s in t.scopes && ActionsOk(t, s)
    ensures t.scopes[s].active.generation == t.scopes[s].generation
  {
  }

  lemma InitializeFrame(t: Tables, t': Tables, s: ScopeId, row: ScopeRow)
    requires KeysOk(t) && s !in t.scopes && t' == t.(scopes := t.scopes[s := row])
    requires row.active.generation == row.generation == 0 && row.state.Idle? && row.epoch == 0 && row.current.None?
    ensures KeysOk(t') && Grows(t, t') && ActionsOk(t', s)
  {
  }

  lemma InitializeKeeps(t: Tables, s: ScopeId, binding: Binding, proof: BootstrapProof, valid: bool)
    requires Inv(t)
    ensures var t' := After(t, Initialize(t, s, binding, proof, valid)); Inv(t') && Grows(t, t')
  {
    hide LedgerOk, KeysOk, ActionsOk;
    var t' := After(t, Initialize(t, s, binding, proof, valid));
    if t' != t {
      InitializeFrame(t, t', s, t'.scopes[s]);
      forall s' | s' in t'.scopes ensures ActionsOk(t', s') {
        if s' in t.scopes {
          assert ScopeOk(t, s');
          GenerationStored(t, s');
          ActionsKept(t, t', s');
        }
      }
      PointersKept(t, t');
    }
  }

  lemma BeginKeeps(t: Tables, s: ScopeId, operation: OperationId, request: Digest)
    requires Inv(t)
    ensures var t' := After(t, BeginAction(t, s, operation, request)); Inv(t') && Grows(t, t')
  {
    hide RowConsistent, ScopeOk;
    var t' := After(t, BeginAction(t, s, operation, request));
    if t' != t {
      var key := ActionKey(s, operation);
      ActionWriteKeeps(t, t', s, key, t'.scopes[s], t'.actions[key]);
    }
  }

  lemma EndKeeps(t: Tables, s: ScopeId, lease: Lease, uncertain: bool, outcome: seq<bv8>)
    requires Inv(t)
    ensures var t' := After(t, EndAction(t, s, lease, uncertain, outcome)); Inv(t') && Grows(t, t')
  {
    hide RowConsistent, ScopeOk;
    var result := EndAction(t, s, lease, uncertain, outcome);
    if result.Done? {
      var key := ActionKey(s, lease.operation);
      ActionWriteKeeps(t, result.tables, s, key, result.tables.scopes[s], result.tables.actions[key]);
    }
  }

  lemma ReconcileKeeps(t: Tables, s: ScopeId, proof: ReconciliationProof)
    requires Inv(t)
    ensures var t' := After(t, Reconcile(t, s, proof)); Inv(t') && Grows(t, t')
  {
    hide RowConsistent, LedgerOk;
    var result := Reconcile(t, s, proof);
    if result.Done? {
      var key := ActionKey(s, proof.operation);
      assert ScopeOk(t, s);
      hide ActionsOk;
      ActionWriteKeeps(t, result.tables, s, key, result.tables.scopes[s], result.tables.actions[key]);
    }
  }

  /** Writing the ticket or the preparation table leaves scope rows, actions and receipts alone. */
  lemma SideTablesKeep(t: Tables, t': Tables)
    requires Inv(t) && Grows(t, t') && KeysOk(t')
    requires t'.scopes == t.scopes && t'.actions == t.actions && t'.receipts == t.receipts
    ensures Inv(t')
  {
    hide LedgerOk;
    forall s | s in t'.scopes ensures ActionsOk(t', s) {
      assert ScopeOk(t, s);
      ActionsKept(t, t', s);
    }
    hide KeysOk, Grows, ActionsOk;
    PointersKept(t, t');
  }

  lemma TicketWriteKeeps(t: Tables, t': Tables, row: TicketRow)
    requires Inv(t) && row.ticket.scope in t.scopes && t' == t.(tickets := t.tickets[row.ticket.id := row])
    requires row.ticket.id in t.tickets ==> t.tickets[row.ticket.id].ticket == row.ticket && row.consumed
    ensures Inv(t') && Grows(t, t')
  {
    assert KeysOk(t') && Grows(t, t') by {
      hide ScopeOk;
    }
    hide ScopeOk, KeysOk, Grows;
    SideTablesKeep(t, t');
  }

  lemma ReserveKeeps(t: Tables, s: ScopeId, operation: OperationId, expected: nat, lifetime: int, id: string,
                     now: Instant)
    requires Inv(t)
    ensures var t' := After(t, ReserveBoundary(t, s, operation, expected, lifetime, id, now)); Inv(t') && Grows(t, t')
  {
    hide Inv, RowConsistent;
    var result := ReserveBoundary(t, s, operation, expected, lifetime, id, now);
    if result.Done? {
      TicketWriteKeeps(t, result.tables, result.tables.tickets[id]);
    }
  }

  lemma ConsumeKeeps(t: Tables, s: ScopeId, ticket: Ticket, now: Instant)
    requires Inv(t)
    ensures var t' := After(t, ConsumeBoundary(t, s, ticket, now)); Inv(t') && Grows(t, t')
  {
    hide Inv, RowConsistent;
    var result := ConsumeBoundary(t, s, ticket, now);
    if result.Done? {
      TicketWriteKeeps(t, result.tables, result.tables.tickets[ticket.id]);
    }
  }

  lemma PrepareKeeps(t: Tables, record: Prepared)
    requires Inv(t)
    ensures var t' := After(t, SavePrepared(t, record)); Inv(t') && Grows(t, t')
  {
    var t' := After(t, SavePrepared(t, record));
    assert KeysOk(t') && Grows(t, t') by {
      hide ScopeOk, RowConsistent;
    }
    hide ScopeOk, RowConsistent, KeysOk, Grows;
    SideTablesKeep(t, t');
  }

  lemma CommitFrame(t: Tables, s: ScopeId, ticket: Ticket, receipt: Receipt)
    requires KeysOk(t) && s in t.scopes && receipt.scope == s
    requires ticket.id in t.tickets && t.tickets[ticket.id].ticket == ticket
    ensures var t' := After(t, Commit(t, s, ticket, receipt)); KeysOk(t') && Grows(t, t')
  {
    var t' := After(t, Commit(t, s, ticket, receipt));
    if t' != t {
      forall i, j | 0 <= i < j < |t'.receipts| ensures t'.receipts[i].id != t'.receipts[j].id {
        assert t'.receipts[i] == t.receipts[i] && t.receipts[i] in t.receipts;
      }
    }
  }

  /** The ledger of the scope gains the receipt; every other ledger stays. */
  lemma CommitLedger(t: Tables, t': Tables, s: ScopeId, receipt: Receipt)
    requires s in t.scopes && s in t'.scopes && LedgerOk(t, s) && Grows(t, t')
    requires t'.receipts == t.receipts + [receipt]
    requires if receipt.scope == s
             then && EntryOk(t', Ledger(t.receipts, s) + [receipt], t.scopes[s].generation)
                  && t'.scopes[s].active == receipt.Target() && t'.scopes[s].generation == receipt.after
             else t'.scopes[s] == t.scopes[s]
    ensures LedgerOk(t', s)
  {
    EntriesKept(t, t', s);
    hide Grows;
    LedgerAppend(t.receipts, receipt, s);
    if receipt.scope == s {
      var ledger := Ledger(t.receipts, s);
      forall g | 0 <= g < |ledger| + 1 ensures EntryOk(t', ledger + [receipt], g) {
        if g < |ledger| {
          assert EntryOk(t', ledger, g);
        }
      }
      assert Ledger(t'.receipts, s) == ledger + [receipt];
    } else {
      assert Ledger(t'.receipts, s) == Ledger(t.receipts, s);
    }
  }

  /** Appending a receipt that extends its ledger and moving the pointer with it keeps everything. */
  lemma CommitKeeps(t: Tables, s: ScopeId, ticket: Ticket, receipt: Receipt)
    requires Inv(t) && s in t.scopes && receipt.scope == s
    requires ticket.id in t.tickets && t.tickets[ticket.id].ticket == ticket
    requires Commit(t, s, ticket, receipt).Done?
    requires EntryOk(Commit(t, s, ticket, receipt).tables, Ledger(t.receipts, s) + [receipt], t.scopes[s].generation)
    ensures var t' := Commit(t, s, ticket, receipt).tables; Inv(t') && Grows(t, t')
  {
    hide KeysOk, LedgerOk, EntryOk, Grows, ActionsOk, Ledger;
    var t' := Commit(t, s, ticket, receipt).tables;
    CommitFrame(t, s, ticket, receipt);
    forall s' | s' in t'.scopes ensures ScopeOk(t', s') {
      assert ScopeOk(t, s');
      GenerationStored(t, s');
      ActionsKept(t, t', s');
      CommitLedger(t, t', s', receipt);
    }
  }

  /** The newest receipt of a scope belongs to an earlier epoch than an operation without an activation. */
  lemma NewestIsOlder(t: Tables, s: ScopeId, operation: OperationId)
    requires s in t.scopes && ScopeOk(t, s) && Ledger(t.receipts, s) != []
    requires ActionKey(s, operation) in t.actions
    requires t.actions[ActionKey(s, operation)].epoch == t.scopes[s].epoch
    requires Find(t.receipts, ActivationByOperation(s, operation)).None?
    ensures EpochOf(t, Ledger(t.receipts, s)[|Ledger(t.receipts, s)| - 1]) < t.scopes[s].epoch
  {
    var ledger := Ledger(t.receipts, s);
    var g := |ledger| - 1;
    assert ledger[g] in ledger;
    assert EntryOk(t, ledger, g);
    if ledger[g].Rollback? {
      assert ledger[g - 1] in ledger;
    }
    assert ledger[g].operation != operation;
    assert ActionKey(s, ledger[g].operation) in t.actions;
  }

  /** A new activation extends the ledger of its scope. */
  lemma ActivationExtends(t: Tables, t': Tables, s: ScopeId, record: Prepared, ticket: Ticket, now: Instant,
                          receipt: Receipt)
    requires s in t.scopes && ScopeOk(t, s) && Grows(t, t') && t'.actions == t.actions
    requires record.id in t.prepared && t.prepared[record.id] == record
    requires record.scope == s && record.oldBinding == t.scopes[s].active
    requires Find(t.receipts, ActivationByOperation(s, record.operation)).None?
    requires TicketFor(t, s, ticket, now, record.operation, record.request)
    requires ticket.id in t'.tickets && t'.tickets[ticket.id].consumed
    requires receipt.WellFormed() && receipt.Activation? && receipt.scope == s && receipt.prepared == record.id
    requires receipt.operation == record.operation && receipt.request == record.request && receipt.ticket == ticket.id
    requires receipt.oldBinding == record.oldBinding && receipt.newBinding == record.newBinding
    requires receipt.before == t.scopes[s].generation
    ensures EntryOk(t', Ledger(t.receipts, s) + [receipt], t.scopes[s].generation)
  {
    hide ActionsOk;
    var ledger := Ledger(t.receipts, s);
    if ledger != [] {
      NewestIsOlder(t, s, record.operation);
      assert ledger[|ledger| - 1] in ledger;
    }
  }

  lemma ActivateKeeps(t: Tables, s: ScopeId, preparedId: string, ticket: Ticket, approval: Digest,
                      authorized: bool, receiptId: string, now: Instant)
    requires Inv(t)
    ensures var t' := After(t, ActivatePrepared(t, s, preparedId, ticket, approval, authorized, receiptId, now));
            Inv(t') && Grows(t, t')
  {
    hide RowConsistent, ActionsOk, LedgerOk, KeysOk;
    var outcome := ActivatePrepared(t, s, preparedId, ticket, approval, authorized, receiptId, now);
    if outcome.Done? && outcome.tables != t {
      hide Grows;
      assert ScopeOk(t, s);
      CommitFrame(t, s, ticket, outcome.value);
      ActivationExtends(t, outcome.tables, s, t.prepared[preparedId], ticket, now, outcome.value);
      CommitKeeps(t, s, ticket, outcome.value);
    }
  }

  /** A new rollback extends the ledger right after the activation it undoes. */
  lemma RollbackExtends(t: Tables, t': Tables, s: ScopeId, source: Receipt, ticket: Ticket, now: Instant,
                        receipt: Receipt)
    requires s in t.scopes && LedgerOk(t, s) && Grows(t, t') && t'.actions == t.actions
    requires source in t.receipts && source.scope == s && source.Activation? && source.after == t.scopes[s].generation
    requires TicketFor(t, s, ticket, now, source.operation, source.request)
    requires ticket.id in t'.tickets && t'.tickets[ticket.id].consumed
    requires receipt.WellFormed() && receipt.Rollback? && receipt.scope == s && receipt.source == source.id
    requires receipt.operation == source.operation && receipt.request == source.request && receipt.ticket == ticket.id
    requires receipt.restored == source.oldBinding.(generation := t.scopes[s].generation + 1)
    requires receipt.before == t.scopes[s].generation
    ensures EntryOk(t', Ledger(t.receipts, s) + [receipt], t.scopes[s].generation)
  {
    AtItsGeneration(t, source);
  }

  lemma RollbackKeeps(t: Tables, s: ScopeId, sourceId: string, ticket: Ticket,
                      authorized: bool, receiptId: string, now: Instant)
    requires Inv(t)
    ensures var t' := After(t, RollbackReceipt(t, s, sourceId, ticket, authorized, receiptId, now));
            Inv(t') && Grows(t, t')
  {
    hide RowConsistent, ActionsOk, LedgerOk, KeysOk;
    var outcome := RollbackReceipt(t, s, sourceId, ticket, authorized, receiptId, now);
    if outcome.Done? && outcome.tables != t {
      hide Grows;
      assert ScopeOk(t, s);
      CommitFrame(t, s, ticket, outcome.value);
      RollbackExtends(t, outcome.tables, s, Find(t.receipts, ById(s, sourceId)).value, ticket, now, outcome.value);
      CommitKeeps(t, s, ticket, outcome.value);
    }
  }

  /** Every transaction, successful or not, keeps the invariant and loses no row. */
  lemma ApplyKeeps(t: Tables, e: Event)
    requires Inv(t)
    ensures Inv(Apply(t, e)) && Grows(t, Apply(t, e))
  {
    hide Inv, Grows, After;
    match e {
      case InitializeEvent(s, binding, proof, valid) => InitializeKeeps(t, s, binding, proof, valid);
      case BeginEvent(s, operation, request) => BeginKeeps(t, s, operation, request);
      case EndEvent(s, lease, uncertain, outcome) => EndKeeps(t, s, lease, uncertain, outcome);
      case ReconcileEvent(s, proof) => ReconcileKeeps(t, s, proof);
      case ReserveEvent(s, operation, expected, lifetime, id, now) => ReserveKeeps(t, s, operation, expected,
            lifetime, id, now);
      case ConsumeEvent(s, ticket, now) => ConsumeKeeps(t, s, ticket, now);
      case PrepareEvent(record) => PrepareKeeps(t, record);
      case ActivateEvent(s, prepared, ticket, approval, authorized, id, now) =>
        ActivateKeeps(t, s, prepared, ticket, approval, authorized, id, now);
      case RollbackEvent(s, source, ticket, authorized, id, now) =>
        RollbackKeeps(t, s, source, ticket, authorized, id, now);
    }
  }

  lemma {:induction false} ExecKeeps(t: Tables, es: seq<Event>)
    requires Inv(t)
    ensures Inv(Exec(t, es)) && Grows(t, Exec(t, es))
    decreases |es|
  {
    if es == [] {
    } else {
      ExecKeeps(t, es[..|es| - 1]);
      ApplyKeeps(Exec(t, es[..|es| - 1]), es[|es| - 1]);
    }
  }

  /** Every state reachable from an empty database by any interleaving satisfies the invariant. */
  lemma ReachableOk(es: seq<Event>)
    ensures Inv(Exec(EMPTY, es))
  {
    ExecKeeps(EMPTY, es);
  }
}
