/**
 The immutable records of the runtime replacement protocol.

 Digests are strings and stand for their pre-image: a scope is named by its digest, and
 two bindings are compared by value where the program compares their digests.  A keyed
 signature is a free constructor over the signed payload, so that it is injective and can
 only be produced from exactly that payload.
 */
module RuntimeModels {
  import opened Common

  type ScopeId = string
  type OperationId = string
  type Digest = string
  type Instant = int  // microseconds on the injected clock

  datatype ActionState = Idle | Running | Uncertain

  datatype Risk = Low | Medium | High | Critical

  datatype Binding = Binding(capsule: string, view: Digest, input: Digest, generation: nat)

  datatype Mac =
    | BootstrapMac(scope: ScopeId, binding: Binding, issuedAt: Instant)
    | ReconcileMac(scope: ScopeId, operation: OperationId, epoch: nat,
                   termination: Digest, evidence: Digest, issuedAt: Instant)
    | TicketMac(ticket: string, scope: ScopeId, generation: nat, epoch: nat,
                operation: OperationId, expiresAt: Instant)
    | Forged(tag: int)

  datatype BootstrapProof =
    BootstrapProof(scope: ScopeId, binding: Binding, issuedAt: Instant, signature: Mac)
  {
    predicate Genuine() {
      signature == BootstrapMac(scope, binding, issuedAt)
    }
  }

  datatype ReconciliationProof =
    ReconciliationProof(scope: ScopeId, operation: OperationId, epoch: nat,
                        termination: Digest, evidence: Digest, issuedAt: Instant, signature: Mac)
  {
    predicate Genuine() {
      signature == ReconcileMac(scope, operation, epoch, termination, evidence, issuedAt)
    }
  }

  datatype Lease =
    Lease(scope: ScopeId, operation: OperationId, request: Digest, epoch: nat,
          state: ActionState, replayed: bool, outcome: Option<seq<bv8>>)

  datatype Ticket =
    Ticket(id: string, scope: ScopeId, expectedGeneration: nat, epoch: nat,
           operation: OperationId, expiresAt: Instant, signature: Mac)
  {
    predicate Genuine() {
      signature == TicketMac(id, scope, expectedGeneration, epoch, operation, expiresAt)
    }
  }

  datatype Prepared =
    Prepared(id: string, scope: ScopeId, operation: OperationId, request: Digest,
             oldBinding: Binding, newBinding: Binding, evidence: Digest, expiresAt: Instant,
             payload: seq<bv8>, risk: Risk, approvalRequired: bool)
  {
    predicate WellFormed() {
      newBinding.generation == oldBinding.generation + 1
    }
  }

  datatype Receipt =
    | Activation(id: string, scope: ScopeId, operation: OperationId, prepared: string, ticket: string,
                 request: Digest, oldBinding: Binding, newBinding: Binding,
                 before: nat, after: nat, approval: Digest)
    | Rollback(id: string, source: string, scope: ScopeId, operation: OperationId, ticket: string,
               request: Digest, restored: Binding, before: nat, after: nat)
  {
    /** The generation rules both receipt models enforce on construction. */
    predicate WellFormed() {
      && after == before + 1
      && Target().generation == after
      && (Activation? ==> oldBinding.generation == before)
    }

    /** The binding the pointer holds once this receipt is committed. */
    function Target(): Binding {
      if Activation? then newBinding else restored
    }
  }
}
