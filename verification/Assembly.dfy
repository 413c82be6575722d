/**
 Assembly of the resolved graph from admitted capsules: an object whose tables grow stage by
 stage, each stage stopping at the first capsule that cannot be resolved.

 ContractCapsule's graph nodes are strings; here the versions a capsule name stands for are
 found by their references, which the injectivity of marker names makes the same thing.
 */
module Assembly {
  import opened Common
  import opened Closure
  import opened CapsuleGraph
  import opened Declarations

  datatype Item = Item(publication: Publication, admitted: set<string>)
  {
    /** The capsule has atoms and all of them were admitted. */
    predicate Whole() {
      publication.atoms != [] && forall a | a in publication.atoms :: a.id in admitted
    }
  }

  // ------------------------------------------------------ what the admission says

  function Refs(items: seq<Item>): set<Ref> {
    set item | item in items :: item.publication.ref
  }

  function WholeRefs(items: seq<Item>): set<Ref> {
    set item | item in items && item.Whole() :: item.publication.ref
  }

  function KnownAtoms(items: seq<Item>): set<string> {
    set item, a | item in items && a in item.publication.atoms :: a.id
  }

  /** Which atoms were admitted, and under which capsule. */
  function Admissions(items: seq<Item>): set<(Atom, Ref)> {
    set item, a | item in items && a in item.publication.atoms && a.id in item.admitted :: (a, item.publication.ref)
  }

  /** Admission lists every publication once. */
  predicate DistinctRefs(items: seq<Item>) {
    forall i, j | 0 <= i < j < |items| :: items[i].publication.ref != items[j].publication.ref
  }

  /** No two admitted atoms share an id and differ. */
  predicate AtomsAgree(admissions: set<(Atom, Ref)>) {
    forall p, q | p in admissions && q in admissions && p.0.id == q.0.id :: p.0 == q.0
  }

  predicate PrivateNames(items: seq<Item>) {
    || (exists id :: id in KnownAtoms(items) && IsPrivate(id))
    || (exists r :: r in Refs(items) && IsPrivate(r.capsuleId))
  }

  // -------------------------------------------------------------- edge families

  function PresenceKey(id: string, r: Ref): EdgeKey {
    EdgeKey(id, Presence(r), Requires)
  }

  function UnitKey(r: Ref, id: string): EdgeKey {
    EdgeKey(Unit(r), id, Requires)
  }

  function Ownership(owners: map<string, set<Ref>>): set<EdgeKey> {
    (set id, r | id in owners && r in owners[id] :: PresenceKey(id, r)) +
    (set id, r | id in owners && r in owners[id] :: UnitKey(r, id))
  }

  /** Ownership is exactly what was admitted so far. */
  ghost predicate Owned(atoms: map<string, Atom>, owners: map<string, set<Ref>>, admissions: set<(Atom, Ref)>) {
    && atoms.Keys == owners.Keys
    && (forall p | p in admissions :: p.0.id in atoms && atoms[p.0.id] == p.0 && p.1 in owners[p.0.id])
    && (forall id, r | id in owners && r in owners[id] :: (atoms[id], r) in admissions)
    && (forall id | id in atoms :: atoms[id].id == id && owners[id] != {})
  }

  /** Publications, completeness and known atom ids are those of the items. */
  ghost predicate InCatalogue(publications: map<Ref, Publication>, refs: seq<Ref>, complete: set<Ref>,
                              known: set<string>, items: seq<Item>) {
    && publications.Keys == Refs(items)
    && (forall item | item in items ::
        item.publication.ref in publications && publications[item.publication.ref] == item.publication)
    && (forall r | r in publications :: publications[r].ref == r)
    && complete == WholeRefs(items)
    && known == KnownAtoms(items)
    && (forall r :: r in refs <==> r in publications)
    && (forall i, j | 0 <= i < j < |refs| :: refs[i] != refs[j])
  }

  /** Exactly these edges are present, and all of them are mandatory. */
  ghost predicate AllMandatory(edges: map<EdgeKey, bool>, keys: set<EdgeKey>) {
    edges.Keys == keys && forall k | k in edges :: edges[k]
  }

  function WithOwner(owners: map<string, set<Ref>>, id: string, r: Ref): map<string, set<Ref>> {
    owners[id := (if id in owners then owners[id] else {}) + {r}]
  }

  lemma OwnedGrows(atoms: map<string, Atom>, owners: map<string, set<Ref>>, admissions: set<(Atom, Ref)>, atom: Atom,
                   r: Ref)
    requires Owned(atoms, owners, admissions) && (atom.id in atoms ==> atoms[atom.id] == atom)
    ensures Owned(atoms[atom.id := atom], WithOwner(owners, atom.id, r), admissions + {(atom, r)})
  {
  }

  // ------------------------------------------------------------ provider choice

  /** Complete capsules that provide an interface the task asks for. */
  function RootCandidates(publications: map<Ref, Publication>, complete: set<Ref>, required: string): set<Ref> {
    set r | r in publications && r in complete && required in publications[r].interfaces
  }

  predicate RootResolves(v: Versions, publications: map<Ref, Publication>, complete: set<Ref>, required: string) {
    v.family(required).Some? && |RootCandidates(publications, complete, required)| == 1
  }

  /** Complete capsules the consumer locks and that satisfy its declared requirement. */
  function Candidates(v: Versions, publications: map<Ref, Publication>, complete: set<Ref>, c: Ref, q: string): set<Ref>
    requires c in publications
  {
    set p | p in publications && p in complete && p in publications[c].locks && v.Matches(publications[p], q)
  }

  predicate RequirementResolves(v: Versions, publications: map<Ref, Publication>, complete: set<Ref>, c: Ref, q: string)
    requires c in publications
  {
    v.declaration(q).Some? && |Candidates(v, publications, complete, c, q)| == 1
  }

  predicate ManifestResolves(v: Versions, publications: map<Ref, Publication>, complete: set<Ref>, c: Ref)
    requires c in publications
  {
    && (forall q | q in publications[c].requirements :: RequirementResolves(v, publications, complete, c, q))
    && (forall d | d in publications[c].conflicts :: v.declaration(d).Some?)
  }

  function RequirementEdges(v: Versions, publications: map<Ref, Publication>, complete: set<Ref>, c: Ref,
                            qs: seq<string>): set<EdgeKey>
    requires c in publications
  {
    set q, p | q in qs && p in Candidates(v, publications, complete, c, q) :: EdgeKey(Presence(c), Unit(p), Requires)
  }

  function ConflictEdges(v: Versions, publications: map<Ref, Publication>, c: Ref, ds: seq<string>): set<EdgeKey>
    requires c in publications
  {
    set d, p | d in ds && p in publications && v.Matches(publications[p], d) ::
      EdgeKey(Presence(c), Presence(p), Conflicts)
  }

  /** The edges the manifests of the listed capsules contribute. */
  function ManifestEdges(v: Versions, publications: map<Ref, Publication>, complete: set<Ref>,
                         rs: seq<Ref>): (keys: set<EdgeKey>)
    requires forall r | r in rs :: r in publications
    ensures forall r | r in rs ::
              && RequirementEdges(v, publications, complete, r, publications[r].requirements) <= keys
              && ConflictEdges(v, publications, r, publications[r].conflicts) <= keys
  {
    if rs == [] then {}
    else
      var c := rs[|rs| - 1];
      assert forall r | r in rs :: r in rs[..|rs| - 1] || r == c;
      ManifestEdges(v, publications, complete, rs[..|rs| - 1])
      + RequirementEdges(v, publications, complete, c, publications[c].requirements)
      + ConflictEdges(v, publications, c, publications[c].conflicts)
  }

  /** Two versions of one capsule exclude each other. */
  function ExclusiveEdges(rs: seq<Ref>): set<EdgeKey> {
    set i, j | 0 <= i < j < |rs| && rs[i].capsuleId == rs[j].capsuleId ::
      EdgeKey(Presence(rs[i]), Presence(rs[j]), Conflicts)
  }

  // ----------------------------------------------------------- atom declarations

  /** Every owner of an atom locks every other capsule that owns the atom it requires. */
  predicate LocksHold(publications: map<Ref, Publication>, owners: map<string, set<Ref>>, id: string, target: string) {
    id in owners && target in owners ==>
      forall c, p | c in owners[id] && p in owners[target] && c != p :: c in publications && p in publications[c].locks
  }

  predicate AtomResolves(publications: map<Ref, Publication>, owners: map<string, set<Ref>>, a: Atom) {
    && (forall target | target in a.requiresAtoms ::
        !IsPrivate(target) && LocksHold(publications, owners, a.id, target))
    && (forall target | target in a.conflictsWith :: !IsPrivate(target))
  }

  function AtomEdges(a: Atom): set<EdgeKey> {
    (set target | target in a.requiresAtoms :: EdgeKey(a.id, target, Requires)) +
    (set target | target in a.conflictsWith :: EdgeKey(a.id, target, Conflicts))
  }

  function AtomKeys(atoms: map<string, Atom>): set<EdgeKey> {
    set id, k | id in atoms && k in AtomEdges(atoms[id]) :: k
  }

  class Builder {
    const versions: Versions
    var atoms: map<string, Atom>
    var owners: map<string, set<Ref>>
    var publications: map<Ref, Publication>
    var refs: seq<Ref>
    var complete: set<Ref>
    var known: set<string>
    var edges: map<EdgeKey, bool>

    constructor (versions: Versions)
      ensures this.versions == versions && Recorded({}) && Catalogued([]) && edges == map[]
    {
      this.versions := versions;
      atoms, owners, publications, refs, complete, known, edges := map[], map[], map[], [], {}, {}, map[];
    }

    ghost predicate Recorded(admissions: set<(Atom, Ref)>)
      reads this
    {
      Owned(atoms, owners, admissions)
    }

    ghost predicate Mandatory(keys: set<EdgeKey>)
      reads this
    {
      AllMandatory(edges, keys)
    }

    /** Inserting an edge never makes an existing mandatory edge optional. */
    method Add(source: string, target: string, kind: EdgeKind := Requires, mandatory: bool := true)
      modifies this`edges
      ensures var k := EdgeKey(source, target, kind);
              edges == old(edges)[k := mandatory || (k in old(edges) && old(edges)[k])]
    {
      var key := EdgeKey(source, target, kind);
      var previous := key in edges && edges[key];
      edges := edges[key := mandatory || previous];
    }

    method AddAll(keys: set<EdgeKey>, mandatory: bool := true)
      modifies this`edges
      ensures Inserted(old(edges), edges, keys, mandatory)
    {
      var rest := keys;
      while rest != {}
        invariant rest <= keys
        invariant Inserted(old(edges), edges, keys - rest, mandatory)
      {
        var k :| k in rest;
        Add(k.source, k.target, k.kind, mandatory);
        rest := rest - {k};
      }
    }

    method AddMandatory(keys: set<EdgeKey>)
      requires Mandatory(edges.Keys)
      modifies this`edges
      ensures Mandatory(old(edges).Keys + keys)
    {
      AddAll(keys);
    }

    method AdmitAtom(atom: Atom, r: Ref, ghost admissions: set<(Atom, Ref)>) returns (ok: bool)
      requires Recorded(admissions) && Mandatory(Ownership(owners))
      modifies this`atoms, this`owners, this`edges
      ensures ok <==> (atom.id in old(atoms) ==> old(atoms)[atom.id] == atom)
      ensures ok ==> Recorded(admissions + {(atom, r)}) && Mandatory(Ownership(owners))
    {
      hide Owned, Ownership, Presence, Unit;
      if atom.id in atoms && atoms[atom.id] != atom {
        return false;
      }
      OwnedGrows(atoms, owners, admissions, atom, r);
      OwnershipGrows(owners, atom.id, r);
      atoms := atoms[atom.id := atom];
      owners := WithOwner(owners, atom.id, r);
      Add(atom.id, Presence(r));
      Add(Unit(r), atom.id);
      return true;
    }

    /** Admits the authorised atoms of one capsule; stops at an atom that contradicts an earlier one. */
    method AdmitPayload(item: Item, ghost admissions: set<(Atom, Ref)>) returns (ok: bool)
      requires Recorded(admissions) && Mandatory(Ownership(owners))
      modifies this`atoms, this`owners, this`edges
      ensures ok <==> AtomsAgree(admissions + Admissions([item]))
      ensures ok ==> Recorded(admissions + Admissions([item])) && Mandatory(Ownership(owners))
    {
      hide Owned, Ownership;
      var payload := item.publication.atoms;
      ghost var inner := {};
      assert admissions + inner == admissions;
      for j := 0 to |payload|
        invariant inner == set a | a in payload[..j] && a.id in item.admitted :: (a, item.publication.ref)
        invariant Recorded(admissions + inner) && Mandatory(Ownership(owners))
      {
        var atom := payload[j];
        assert payload[..j + 1] == payload[..j] + [atom];
        if atom.id in item.admitted {
          ghost var atomsBefore, ownersBefore := atoms, owners;
          var ok := AdmitAtom(atom, item.publication.ref, admissions + inner);
          if !ok {
            Contradicted(atomsBefore, ownersBefore, admissions + inner, atom, item);
            assert !AtomsAgree(admissions + Admissions([item]));
            return false;
          }
          assert admissions + (inner + {(atom, item.publication.ref)}) == admissions + inner
                 + {(atom, item.publication.ref)};
          inner := inner + {(atom, item.publication.ref)};
        }
      }
      assert payload[..|payload|] == payload;
      assert inner == Admissions([item]);
      OwnedAgrees(atoms, owners, admissions + inner);
      return true;
    }

    /** Notes a capsule, and whether all of its atoms were admitted. */
    method Catalogue(item: Item, ghost items: seq<Item>)
      requires Catalogued(items) && DistinctRefs(items + [item])
      modifies this`publications, this`refs, this`known, this`complete
      ensures Catalogued(items + [item])
    {
      hide Refs, WholeRefs, KnownAtoms, Item.Whole;
      CatalogueAppend(items, item);
      var r := item.publication.ref;
      assert r !in publications by {
        if r in publications {
          NotListedYet(items, item);
        }
      }
      refs := refs + [r];
      publications := publications[r := item.publication];
      known := known + item.publication.Payload();
      if item.Whole() {
        complete := complete + {r};
      }
    }

    /** Records every admitted capsule and atom, with the edges that tie atoms to their capsules. */
    method Inventory(items: seq<Item>) returns (error: Option<CompileError>)
      requires DistinctRefs(items)
      requires Recorded({}) && Catalogued([]) && edges == map[]
      modifies this
      ensures error == Some(DuplicateAtom) <==> !AtomsAgree(Admissions(items))
      ensures error == None <==> AtomsAgree(Admissions(items)) && !PrivateNames(items)
      ensures error == None ==> Recorded(Admissions(items)) && Mandatory(Ownership(owners)) && Catalogued(items)
    {
      hide Owned, Ownership, InCatalogue, DistinctRefs, Admissions, AtomsAgree, PrivateNames;
      NothingAdmitted(atoms, owners);
      assert items[..0] == [];
      for i := 0 to |items|
        invariant Recorded(Admissions(items[..i])) && Mandatory(Ownership(owners))
        invariant Catalogued(items[..i])
        invariant AtomsAgree(Admissions(items[..i]))
      {
        assert items[..i + 1] == items[..i] + [items[i]];
        PrefixDistinct(items, i + 1);
        Catalogue(items[i], items[..i]);
        AdmissionsAppend(items[..i], items[i]);
        var ok := AdmitPayload(items[i], Admissions(items[..i]));
        if !ok {
          PrefixAdmissions(items, i + 1);
          return Some(DuplicateAtom);
        }
      }
      assert items[..|items|] == items;
      var forged := Forged(items);
      if forged {
        return Some(InvalidGraph);
      }
      return None;
    }

    /** Does any atom or capsule claim a name reserved for marker nodes? */
    method Forged(ghost items: seq<Item>) returns (forged: bool)
      requires Catalogued(items)
      ensures forged <==> PrivateNames(items)
    {
      hide IsPrivate;
      var names := known + set r | r in publications :: r.capsuleId;
      forged := exists name :: name in names && IsPrivate(name);
    }

    static method Unique(candidates: set<Ref>, missing: CompileError) returns (r: Result<Ref, CompileError>)
      ensures r.Ok? <==> |candidates| == 1
      ensures r.Ok? ==> candidates == {r.value}
      ensures r.Err? ==> r.error == if candidates == {} then missing else AmbiguousProvider
    {
      if candidates == {} {
        return Err(missing);
      }
      if |candidates| != 1 {
        return Err(AmbiguousProvider);
      }
      var provider :| provider in candidates;
      SingletonIs(candidates, provider);
      return Ok(provider);
    }

    /** The payloads of the providers of the interfaces the task requires. */
    method Roots(interfaces: seq<string>, requiredAtoms: set<string>) returns (r: Result<set<string>, CompileError>)
      ensures r.Ok? <==> && (forall q | q in interfaces :: RootResolves(versions, publications, complete, q))
                         && requiredAtoms <= atoms.Keys
      ensures r.Ok? ==> r.value == RootAtoms(publications, complete, interfaces)
    {
      var roots: set<string> := {};
      for i := 0 to |interfaces|
        invariant forall q | q in interfaces[..i] :: RootResolves(versions, publications, complete, q)
        invariant roots == RootAtoms(publications, complete, interfaces[..i])
      {
        if versions.family(interfaces[i]).None? {
          assert interfaces[i] in interfaces;
          return Err(InterfaceIncompatible);
        }
        var candidates := RootCandidates(publications, complete, interfaces[i]);
        var provider := Unique(candidates, MissingInterface);
        if provider.Err? {
          assert interfaces[i] in interfaces;
          return Err(provider.error);
        }
        assert interfaces[..i + 1] == interfaces[..i] + [interfaces[i]];
        assert forall p | p in candidates :: p == provider.value;
        roots := roots + publications[provider.value].Payload();
      }
      assert interfaces[..|interfaces|] == interfaces;
      if !(requiredAtoms <= atoms.Keys) {
        return Err(MissingAtom);
      }
      return Ok(roots);
    }

    /** Links one consumer to the sole provider of each of its requirements. */
    method Requirements(c: Ref) returns (error: Option<CompileError>)
      requires c in publications && Mandatory(edges.Keys)
      modifies this`edges
      ensures error.None? <==>
                forall q | q in publications[c].requirements ::
                  RequirementResolves(versions, publications, complete, c, q)
      ensures error.None? ==>
                Mandatory(old(edges).Keys + RequirementEdges(versions, publications, complete, c,
                                                             publications[c].requirements))
    {
      hide Presence, Unit, Candidates, RequirementEdges, AllMandatory, Versions.Matches;
      var requirements := publications[c].requirements;
      RequirementsStart(versions, publications, complete, c);
      assert old(edges).Keys + {} == old(edges).Keys && requirements[..0] == [];
      for i := 0 to |requirements|
        invariant forall q | q in requirements[..i] :: RequirementResolves(versions, publications, complete, c, q)
        invariant Mandatory(old(edges).Keys + RequirementEdges(versions, publications, complete, c, requirements[..i]))
      {
        var q := requirements[i];
        assert q in requirements;
        if versions.declaration(q).None? {
          return Some(InvalidVersionConstraint);
        }
        var provider := Unique(Candidates(versions, publications, complete, c, q), MissingDependency);
        if provider.Err? {
          return Some(provider.error);
        }
        PrefixStep(requirements, i);
        RequirementStep(versions, publications, complete, c, requirements[..i], q, provider.value);
        ghost var keys := old(edges).Keys + RequirementEdges(versions, publications, complete, c, requirements[..i]);
        MandatoryInsert(edges, keys, EdgeKey(Presence(c), Unit(provider.value), Requires));
        SetAssoc(old(edges).Keys, RequirementEdges(versions, publications, complete, c, requirements[..i]),
                 {EdgeKey(Presence(c), Unit(provider.value), Requires)});
        Add(Presence(c), Unit(provider.value));
      }
      assert requirements[..|requirements|] == requirements;
      return None;
    }

    /** Marks one consumer as excluding every capsule that matches one of its declared conflicts. */
    method Exclusions(c: Ref) returns (error: Option<CompileError>)
      requires c in publications && Mandatory(edges.Keys)
      modifies this`edges
      ensures error.None? <==> forall d | d in publications[c].conflicts :: versions.declaration(d).Some?
      ensures error.None? ==> Mandatory(old(edges).Keys
                                        + ConflictEdges(versions, publications, c, publications[c].conflicts))
    {
      hide ConflictEdges;
      var conflicts := publications[c].conflicts;
      ConflictsStart(versions, publications, c);
      for i := 0 to |conflicts|
        invariant forall d | d in conflicts[..i] :: versions.declaration(d).Some?
        invariant Mandatory(old(edges).Keys + ConflictEdges(versions, publications, c, conflicts[..i]))
      {
        var d := conflicts[i];
        assert d in conflicts;
        if versions.declaration(d).None? {
          return Some(InvalidVersionConstraint);
        }
        assert conflicts[..i + 1] == conflicts[..i] + [d];
        ConflictStep(versions, publications, c, conflicts[..i], d);
        AddAll(ConflictEdges(versions, publications, c, [d]));
      }
      assert conflicts[..|conflicts|] == conflicts;
      return None;
    }

    /** Links every recorded capsule, then makes versions of one capsule exclusive. */
    method Manifests() returns (error: Option<CompileError>)
      requires Mandatory(edges.Keys) && forall r :: r in refs <==> r in publications
      modifies this`edges
      ensures error.None? <==> forall c | c in publications :: ManifestResolves(versions, publications, complete, c)
      ensures error.None? ==>
                Mandatory(old(edges).Keys + ManifestEdges(versions, publications, complete, refs)
                          + ExclusiveEdges(refs))
    {
      hide RequirementResolves, RequirementEdges, ConflictEdges, ExclusiveEdges, AllMandatory, ManifestEdges;
      ManifestsStart(versions, publications, complete);
      assert old(edges).Keys + {} == old(edges).Keys && refs[..0] == [];
      assert AllMandatory(edges, edges.Keys);
      for i := 0 to |refs|
        invariant forall c | c in refs[..i] :: ManifestResolves(versions, publications, complete, c)
        invariant Mandatory(old(edges).Keys + ManifestEdges(versions, publications, complete, refs[..i]))
      {
        var c := refs[i];
        PrefixStep(refs, i);
        assert c in refs;
        MandatoryKeys(edges, old(edges).Keys + ManifestEdges(versions, publications, complete, refs[..i]));
        ManifestStep(versions, publications, complete, refs[..i], c, old(edges).Keys);
        var error := Requirements(c);
        if error.Some? {
          return error;
        }
        MandatoryKeys(edges, old(edges).Keys + ManifestEdges(versions, publications, complete, refs[..i])
                             + RequirementEdges(versions, publications, complete, c, publications[c].requirements));
        error := Exclusions(c);
        if error.Some? {
          return error;
        }
      }
      assert refs[..|refs|] == refs;
      MandatoryKeys(edges, old(edges).Keys + ManifestEdges(versions, publications, complete, refs));
      AddMandatory(ExclusiveEdges(refs));
      return None;
    }

    /** Links one atom to the atoms it requires and excludes. */
    method AtomLinks(atom: Atom) returns (error: Option<CompileError>)
      requires Mandatory(edges.Keys)
      modifies this`edges
      ensures error.None? <==> AtomResolves(publications, owners, atom)
      ensures error.None? ==> Mandatory(old(edges).Keys + AtomEdges(atom))
    {
      hide LocksHold, IsPrivate, AtomEdges, AllMandatory;
      for i := 0 to |atom.requiresAtoms|
        invariant edges == old(edges)
        invariant forall t | t in atom.requiresAtoms[..i] ::
                  !IsPrivate(t) && LocksHold(publications, owners, atom.id, t)
      {
        PrefixStep(atom.requiresAtoms, i);
        var target := atom.requiresAtoms[i];
        if IsPrivate(target) {
          return Some(InvalidGraph);
        }
        if !LocksHold(publications, owners, atom.id, target) {
          return Some(MissingDependency);
        }
      }
      assert atom.requiresAtoms[..|atom.requiresAtoms|] == atom.requiresAtoms;
      for i := 0 to |atom.conflictsWith|
        invariant edges == old(edges)
        invariant forall t | t in atom.conflictsWith[..i] :: !IsPrivate(t)
      {
        PrefixStep(atom.conflictsWith, i);
        if IsPrivate(atom.conflictsWith[i]) {
          return Some(InvalidGraph);
        }
      }
      assert atom.conflictsWith[..|atom.conflictsWith|] == atom.conflictsWith;
      AddMandatory(AtomEdges(atom));
      return None;
    }

    method AtomicEdges() returns (error: Option<CompileError>)
      requires Mandatory(edges.Keys)
      modifies this`edges
      ensures error.None? <==> forall id | id in atoms :: AtomResolves(publications, owners, atoms[id])
      ensures error.None? ==> Mandatory(old(edges).Keys + AtomKeys(atoms))
    {
      hide AtomResolves, AtomEdges;
      var rest := atoms.Keys;
      while rest != {}
        invariant rest <= atoms.Keys
        invariant forall id | id in atoms && id !in rest :: AtomResolves(publications, owners, atoms[id])
        invariant Mandatory(old(edges).Keys + set id, k | id in atoms && id !in rest && k in AtomEdges(atoms[id]) :: k)
      {
        var id :| id in rest;
        var error := AtomLinks(atoms[id]);
        if error.Some? {
          assert id in atoms && !AtomResolves(publications, owners, atoms[id]);
          return error;
        }
        rest := rest - {id};
      }
      assert AtomKeys(atoms) == set id, k | id in atoms && id !in rest && k in AtomEdges(atoms[id]) :: k;
      return None;
    }

    /** A name must denote either versions of a capsule or an atom, and never a marker. */
    method NodeError(name: string) returns (error: Option<CompileError>)
      ensures error.None? <==> NameOk(publications, known, name)
    {
      if IsPrivate(name) {
        return Some(InvalidGraph);
      }
      if Named(publications, name) != {} && name in known {
        return Some(AmbiguousGraphNode);
      }
      return None;
    }

    /** Resolves one edge a capsule declares and inserts what it stands for. */
    method Explicit(c: Ref, e: Declaration) returns (error: Option<CompileError>)
      requires c in publications && publications[c].Payload() <= known
      modifies this`edges
      ensures error.None? <==> Resolves(versions, publications, owners, complete, known, c, e)
      ensures error.None? ==> Inserted(old(edges), edges,
                                       DeclaredEdges(versions, publications, owners, complete, c, e), e.mandatory)
    {
      hide Inserted, IsPrivate, Presence, Unit, Versions.Admit;
      if e.constraint.Some? && !versions.constraint(e.constraint.value) {
        return Some(InvalidVersionConstraint);
      }
      error := NodeError(e.source);
      if error.None? {
        error := NodeError(e.target);
      }
      if error.Some? {
        return error;
      }
      var targets := Named(publications, e.target);
      if e.source != c.capsuleId && e.source !in publications[c].Payload() {
        return Some(InvalidGraph);
      }
      if e.source != c.capsuleId && e.source !in owners && e.source !in known {
        return Some(InvalidGraph);
      }
      if !DeclaredBy(owners, c, e) {
        InsertedNothing(edges, e.mandatory);
        return None;
      }
      var source := SourceNode(c, e);
      if targets == {} {
        var holders := OwnersOf(owners, e.target);
        if !versions.Admit(e, holders) {
          if e.Binding() {
            return Some(MissingDependency);
          }
          InsertedNothing(edges, e.mandatory);
          return None;
        }
        if e.Binding() && exists p :: p in holders && p != c && p !in publications[c].locks {
          return Some(MissingDependency);
        }
        InsertedOne(edges, EdgeKey(source, e.target, e.kind), e.mandatory);
        Add(source, e.target, e.kind, e.mandatory);
        return None;
      }
      if e.Binding() {
        var candidates := Answering(versions, publications, complete, c, e);
        var provider := Unique(candidates, MissingDependency);
        if provider.Err? {
          return Some(provider.error);
        }
        AnsweringOne(versions, publications, owners, complete, c, e, provider.value);
        InsertedOne(edges, EdgeKey(source, Unit(provider.value), e.kind), e.mandatory);
        Add(source, Unit(provider.value), e.kind, e.mandatory);
      } else {
        AddAll(DeclaredEdges(versions, publications, owners, complete, c, e), e.mandatory);
      }
      return None;
    }

    /** Resolves every declared edge of every capsule. */
    method Explicits() returns (error: Option<CompileError>)
      requires forall r :: r in refs <==> r in publications
      requires forall c | c in publications :: publications[c].Payload() <= known
      modifies this`edges
      ensures error.None? <==>
                forall p | p in AllDeclared(publications) ::
                  Resolves(versions, publications, owners, complete, known, p.0, p.1)
      ensures error.None? ==>
                Added(versions, publications, owners, complete, old(edges), edges, AllDeclared(publications))
    {
      hide Resolves, DeclaredEdges, Inserted, Added;
      AddedNothing(versions, publications, owners, complete, edges);
      ghost var made: set<(Ref, Declaration)> := {};
      for i := 0 to |refs|
        invariant made == set c, e | c in refs[..i] && e in publications[c].declared :: (c, e)
        invariant forall p | p in made :: Resolves(versions, publications, owners, complete, known, p.0, p.1)
        invariant Added(versions, publications, owners, complete, old(edges), edges, made)
      {
        var c := refs[i];
        PrefixStep(refs, i);
        var declared := publications[c].declared;
        ghost var earlier := made;
        assert earlier == earlier + set e | e in declared[..0] :: (c, e);
        for j := 0 to |declared|
          invariant made == earlier + set e | e in declared[..j] :: (c, e)
          invariant forall p | p in made :: Resolves(versions, publications, owners, complete, known, p.0, p.1)
          invariant Added(versions, publications, owners, complete, old(edges), edges, made)
        {
          var e := declared[j];
          PrefixStep(declared, j);
          ghost var before := edges;
          var error := Explicit(c, e);
          if error.Some? {
            assert (c, e) in AllDeclared(publications);
            return error;
          }
          AddedOne(versions, publications, owners, complete, old(edges), before, edges, made, c, e);
          made := made + {(c, e)};
        }
        assert declared[..|declared|] == declared;
      }
      assert refs[..|refs|] == refs;
      assert made == AllDeclared(publications);
      return None;
    }

    ghost predicate Catalogued(items: seq<Item>)
      reads this
    {
      InCatalogue(publications, refs, complete, known, items)
    }
  }

  lemma OwnershipGrows(owners: map<string, set<Ref>>, id: string, r: Ref)
    ensures Ownership(WithOwner(owners, id, r)) == Ownership(owners) + {PresenceKey(id, r), UnitKey(r, id)}
  {
    hide Presence, Unit, PresenceKey, UnitKey;
    var after := WithOwner(owners, id, r);
    assert id in after && r in after[id];
    assert Ownership(after) <= Ownership(owners) + {PresenceKey(id, r), UnitKey(r, id)};
    assert forall id', r' | id' in owners && r' in owners[id'] :: id' in after && r' in after[id'];
    assert Ownership(owners) <= Ownership(after);
  }

  lemma NothingAdmitted(atoms: map<string, Atom>, owners: map<string, set<Ref>>)
    requires Owned(atoms, owners, {})
    ensures Ownership(owners) == {} && Admissions([]) == {} && AtomsAgree({})
  {
    assert owners.Keys == {};
  }

  lemma CatalogueAppend(items: seq<Item>, item: Item)
    ensures Refs(items + [item]) == Refs(items) + {item.publication.ref}
    ensures WholeRefs(items + [item]) == WholeRefs(items) + if item.Whole() then {item.publication.ref} else {}
    ensures KnownAtoms(items + [item]) == KnownAtoms(items) + item.publication.Payload()
  {
    assert item in items + [item];
    assert forall i | i in items :: i in items + [item];
  }

  lemma NotListedYet(items: seq<Item>, item: Item)
    requires DistinctRefs(items + [item])
    ensures item.publication.ref !in Refs(items)
  {
    var all := items + [item];
    assert forall i | 0 <= i < |items| :: all[i] == items[i];
    assert all[|items|] == item;
  }

  lemma PrefixDistinct(items: seq<Item>, n: nat)
    requires DistinctRefs(items) && n <= |items|
    ensures DistinctRefs(items[..n])
  {
  }

  lemma PrefixAdmissions(items: seq<Item>, n: nat)
    requires n <= |items| && !AtomsAgree(Admissions(items[..n]))
    ensures !AtomsAgree(Admissions(items))
  {
    assert Admissions(items[..n]) <= Admissions(items);
  }

  lemma AdmissionsAppend(items: seq<Item>, item: Item)
    ensures Admissions(items + [item]) == Admissions(items) + Admissions([item])
  {
  }

  lemma OwnedAgrees(atoms: map<string, Atom>, owners: map<string, set<Ref>>, admissions: set<(Atom, Ref)>)
    requires Owned(atoms, owners, admissions)
    ensures AtomsAgree(admissions)
  {
  }

  /** An atom that differs from the recorded one contradicts an admission. */
  lemma Contradicted(atoms: map<string, Atom>, owners: map<string, set<Ref>>, admissions: set<(Atom, Ref)>,
                     atom: Atom, item: Item)
    requires Owned(atoms, owners, admissions) && atom.id in atoms && atoms[atom.id] != atom
    requires atom in item.publication.atoms && atom.id in item.admitted
    ensures exists p :: p in admissions && p.0.id == atom.id && p.0 != atom
    ensures (atom, item.publication.ref) in Admissions([item])
  {
    assert item in [item];
    var r :| r in owners[atom.id];
    assert (atoms[atom.id], r) in admissions;
  }

  lemma RequirementStep(v: Versions, publications: map<Ref, Publication>, complete: set<Ref>, c: Ref, qs: seq<string>,
                        q: string, p: Ref)
    requires c in publications && Candidates(v, publications, complete, c, q) == {p}
    ensures RequirementEdges(v, publications, complete, c, qs + [q])
         == RequirementEdges(v, publications, complete, c, qs) + {EdgeKey(Presence(c), Unit(p), Requires)}
  {
    hide Presence, Unit, Candidates;
    var key := EdgeKey(Presence(c), Unit(p), Requires);
    var before, after := RequirementEdges(v, publications, complete, c, qs),
        RequirementEdges(v, publications, complete, c, qs + [q]);
    forall k | k in after ensures k in before + {key} {
      var q', p' :| q' in qs + [q] && p' in Candidates(v, publications, complete, c, q')
          && k == EdgeKey(Presence(c), Unit(p'), Requires);
      assert q' in qs || q' == q;
    }
    assert q in qs + [q] && p in Candidates(v, publications, complete, c, q);
    assert key in after;
    forall k | k in before ensures k in after {
      var q', p' :| q' in qs && p' in Candidates(v, publications, complete, c, q')
          && k == EdgeKey(Presence(c), Unit(p'), Requires);
      assert q' in qs + [q];
    }
  }

  lemma PrefixStep<T>(xs: seq<T>, i: nat)
    requires i < |xs|
    ensures xs[..i + 1] == xs[..i] + [xs[i]] && xs[i] in xs
  {
  }

  lemma SetAssoc<T>(a: set<T>, b: set<T>, c: set<T>)
    ensures a + b + c == a + (b + c)
  {
  }

  lemma MandatoryInsert(edges: map<EdgeKey, bool>, keys: set<EdgeKey>, k: EdgeKey)
    requires AllMandatory(edges, keys)
    ensures AllMandatory(edges[k := true], keys + {k})
  {
  }

  lemma MandatoryKeys(edges: map<EdgeKey, bool>, keys: set<EdgeKey>)
    requires AllMandatory(edges, keys)
    ensures edges.Keys == keys && AllMandatory(edges, edges.Keys)
  {
  }

  lemma ManifestsStart(v: Versions, publications: map<Ref, Publication>, complete: set<Ref>)
    ensures ManifestEdges(v, publications, complete, []) == {}
  {
  }

  lemma ManifestStep(v: Versions, publications: map<Ref, Publication>, complete: set<Ref>, rs: seq<Ref>, c: Ref,
                     keys: set<EdgeKey>)
    requires c in publications && forall r | r in rs :: r in publications
    ensures keys + ManifestEdges(v, publications, complete, rs + [c])
         == keys + ManifestEdges(v, publications, complete, rs)
            + RequirementEdges(v, publications, complete, c, publications[c].requirements)
            + ConflictEdges(v, publications, c, publications[c].conflicts)
  {
    hide RequirementEdges, ConflictEdges;
    assert (rs + [c])[..|rs|] == rs;
  }

  lemma RequirementsStart(v: Versions, publications: map<Ref, Publication>, complete: set<Ref>, c: Ref)
    requires c in publications
    ensures RequirementEdges(v, publications, complete, c, []) == {}
  {
  }

  lemma ConflictsStart(v: Versions, publications: map<Ref, Publication>, c: Ref)
    requires c in publications
    ensures ConflictEdges(v, publications, c, []) == {}
  {
  }

  lemma ConflictStep(v: Versions, publications: map<Ref, Publication>, c: Ref, ds: seq<string>, d: string)
    requires c in publications
    ensures ConflictEdges(v, publications, c, ds + [d])
         == ConflictEdges(v, publications, c, ds) + ConflictEdges(v, publications, c, [d])
  {
    hide Presence, Versions.Matches;
    var before, one, after := ConflictEdges(v, publications, c, ds), ConflictEdges(v, publications, c, [d]),
        ConflictEdges(v, publications, c, ds + [d]);
    forall k | k in after ensures k in before + one {
      var d', p :| d' in ds + [d] && p in publications && v.Matches(publications[p], d')
          && k == EdgeKey(Presence(c), Presence(p), Conflicts);
      assert d' in ds || d' in [d];
    }
    forall k | k in before + one ensures k in after {
      var d', p :| (d' in ds || d' in [d]) && p in publications && v.Matches(publications[p], d')
          && k == EdgeKey(Presence(c), Presence(p), Conflicts);
      assert d' in ds + [d];
    }
  }

  // ------------------------------------------------------------- the whole resolution

  /** The inventory supports exactly the completeness the graph can see. */
  lemma WholeMeansComplete(items: seq<Item>, g: ResolvedGraph, r: Ref)
    requires DistinctRefs(items) && Owned(g.atoms, g.owners, Admissions(items))
    requires forall item | item in items ::
             item.publication.ref in g.publications && g.publications[item.publication.ref] == item.publication
    requires r in Refs(items)
    ensures Complete(g, r) <==> r in WholeRefs(items)
  {
    hide Owned;
    SameItem(items, r);
    var item :| item in items && item.publication.ref == r;
    assert r in WholeRefs(items) <==> item.Whole();
    forall a | a in item.publication.atoms
      ensures a.id in item.admitted <==> a.id in g.owners && r in g.owners[a.id]
    {
      AdmittedIffOwned(items, g, item, a);
    }
  }

  lemma AdmittedIffOwned(items: seq<Item>, g: ResolvedGraph, item: Item, a: Atom)
    requires DistinctRefs(items) && Owned(g.atoms, g.owners, Admissions(items))
    requires item in items && a in item.publication.atoms
    ensures a.id in item.admitted <==> a.id in g.owners && item.publication.ref in g.owners[a.id]
  {
    var r := item.publication.ref;
    SameItem(items, r);
    assert a.id in item.admitted ==> (a, r) in Admissions(items);
    assert a.id in g.owners && r in g.owners[a.id] ==> (g.atoms[a.id], r) in Admissions(items);
  }

  lemma SameItem(items: seq<Item>, r: Ref)
    requires DistinctRefs(items)
    ensures forall i, j | i in items && j in items && i.publication.ref == r && j.publication.ref == r :: i == j
  {
  }

  /** The edges of a finished assembly include every family, and the inventory is exactly the admission. */
  ghost predicate Finished(items: seq<Item>, v: Versions, g: ResolvedGraph, refs: seq<Ref>) {
    && DistinctRefs(items)
    && !PrivateNames(items)
    && Owned(g.atoms, g.owners, Admissions(items))
    && InCatalogue(g.publications, refs, WholeRefs(items), KnownAtoms(items), items)
    && (forall c | c in g.publications :: ManifestResolves(v, g.publications, WholeRefs(items), c))
    && (forall r | r in refs :: r in g.publications)
    && (forall k | k in Ownership(g.owners) + ManifestEdges(v, g.publications, WholeRefs(items), refs)
        + ExclusiveEdges(refs) ::
          Edge(k.source, k.target, k.kind, true) in g.edges)
  }

  lemma OwnersAssembled(items: seq<Item>, v: Versions, g: ResolvedGraph, refs: seq<Ref>)
    requires Finished(items, v, g, refs)
    ensures g.atoms.Keys == g.owners.Keys
    ensures forall id | id in g.atoms :: !IsPrivate(id) && g.atoms[id].id == id && g.owners[id] != {}
    ensures forall id, r | id in g.owners && r in g.owners[id] ::
              && r in g.publications && id in g.publications[r].Payload()
              && g.Binds(id, Presence(r)) && g.Binds(Unit(r), id)
  {
    hide ManifestResolves, ManifestEdges, ExclusiveEdges, Presence, Unit, IsPrivate, Owned, InCatalogue, Ownership,
      DistinctRefs;
    OwnersKnown(items, g, refs);
    forall id, r | id in g.owners && r in g.owners[id] ensures g.Binds(id, Presence(r)) && g.Binds(Unit(r), id) {
      OwnershipHas(g.owners, id, r);
    }
  }

  lemma OwnershipHas(owners: map<string, set<Ref>>, id: string, r: Ref)
    requires id in owners && r in owners[id]
    ensures PresenceKey(id, r) in Ownership(owners) && UnitKey(r, id) in Ownership(owners)
  {
    hide Presence, Unit;
  }

  lemma OwnersKnown(items: seq<Item>, g: ResolvedGraph, refs: seq<Ref>)
    requires Owned(g.atoms, g.owners, Admissions(items))
    requires InCatalogue(g.publications, refs, WholeRefs(items), KnownAtoms(items), items)
    ensures g.atoms.Keys == g.owners.Keys
    ensures forall id | id in g.atoms :: g.atoms[id].id == id && g.owners[id] != {} && id in KnownAtoms(items)
    ensures forall id, r | id in g.owners && r in g.owners[id] ::
            r in g.publications && id in g.publications[r].Payload()
  {
    forall id, r | id in g.owners && r in g.owners[id]
      ensures r in g.publications && id in g.publications[r].Payload() && id in KnownAtoms(items)
    {
      assert (g.atoms[id], r) in Admissions(items);
    }
  }

  lemma CatalogueFacts(publications: map<Ref, Publication>, refs: seq<Ref>, complete: set<Ref>, known: set<string>,
                       items: seq<Item>)
    requires InCatalogue(publications, refs, complete, known, items)
    ensures publications.Keys == Refs(items) && complete == WholeRefs(items) && known == KnownAtoms(items)
    ensures forall r :: r in refs <==> r in publications
    ensures forall i, j | 0 <= i < j < |refs| :: refs[i] != refs[j]
  {
  }

  /** The atoms of whole capsules, and so every root, are in the graph. */
  lemma WholePayloadAdmitted(items: seq<Item>, atoms: map<string, Atom>, owners: map<string, set<Ref>>,
                             publications: map<Ref, Publication>, refs: seq<Ref>, r: Ref)
    requires Owned(atoms, owners, Admissions(items)) && r in WholeRefs(items)
    requires InCatalogue(publications, refs, WholeRefs(items), KnownAtoms(items), items)
    ensures r in publications && publications[r].Payload() <= atoms.Keys
  {
    var item :| item in items && item.Whole() && item.publication.ref == r;
    forall a | a in item.publication.atoms ensures a.id in atoms {
      assert (a, r) in Admissions(items);
    }
  }

  function RootAtoms(publications: map<Ref, Publication>, complete: set<Ref>, interfaces: seq<string>): set<string> {
    set q, p, a | q in interfaces && p in RootCandidates(publications, complete, q) && a in publications[p].atoms ::
      a.id
  }

  lemma RootsAdmitted(items: seq<Item>, atoms: map<string, Atom>, owners: map<string, set<Ref>>,
                      publications: map<Ref, Publication>, refs: seq<Ref>, interfaces: seq<string>)
    requires Owned(atoms, owners, Admissions(items))
    requires InCatalogue(publications, refs, WholeRefs(items), KnownAtoms(items), items)
    ensures RootAtoms(publications, WholeRefs(items), interfaces) <= atoms.Keys
  {
    hide Owned, InCatalogue, WholeRefs;
    forall q, p, a | q in interfaces && p in RootCandidates(publications, WholeRefs(items), q)
      && a in publications[p].atoms
      ensures a.id in atoms
    {
      WholePayloadAdmitted(items, atoms, owners, publications, refs, p);
      assert a.id in publications[p].Payload();
    }
  }

  lemma RequirementAssembled(items: seq<Item>, v: Versions, g: ResolvedGraph, refs: seq<Ref>, c: Ref, q: string)
    requires Finished(items, v, g, refs) && c in g.publications && q in g.publications[c].requirements
    ensures ServedByOne(g, v, c, q)
  {
    hide Ownership, ManifestEdges, ExclusiveEdges, Presence, Unit, Versions.Matches, PrivateNames, Owned, Complete,
      DistinctRefs,
      Serves, Candidates, WholeRefs;
    var complete := WholeRefs(items);
    assert ManifestResolves(v, g.publications, complete, c) && RequirementResolves(v, g.publications, complete, c, q);
    var candidates := Candidates(v, g.publications, complete, c, q);
    var p :| p in candidates;
    SingletonIs(candidates, p);
    ServersAreCandidates(items, v, g, refs, c, q);
    var key := EdgeKey(Presence(c), Unit(p), Requires);
    assert key in RequirementEdges(v, g.publications, complete, c, g.publications[c].requirements);
    assert key in ManifestEdges(v, g.publications, complete, refs);
    assert g.Binds(Presence(c), Unit(p));
  }

  lemma ServersAreCandidates(items: seq<Item>, v: Versions, g: ResolvedGraph, refs: seq<Ref>, c: Ref, q: string)
    requires Finished(items, v, g, refs) && c in g.publications
    ensures forall p :: Serves(g, v, c, q, p) <==> p in Candidates(v, g.publications, WholeRefs(items), c, q)
  {
    hide Ownership, ManifestEdges, ExclusiveEdges, Presence, Unit, Versions.Matches, PrivateNames, Owned, Complete,
      DistinctRefs,
      ManifestResolves, ResolvedGraph.Binds, ResolvedGraph.Excludes;
    forall p ensures Serves(g, v, c, q, p) <==> p in Candidates(v, g.publications, WholeRefs(items), c, q) {
      CompleteIsPublished(g, p);
      if p in g.publications {
        assert p in Refs(items);
        WholeMeansComplete(items, g, p);
      }
    }
  }

  lemma CompleteIsPublished(g: ResolvedGraph, r: Ref)
    ensures Complete(g, r) ==> r in g.publications
  {
  }

  lemma ConflictAssembled(items: seq<Item>, v: Versions, g: ResolvedGraph, refs: seq<Ref>, c: Ref, d: string, p: Ref)
    requires Finished(items, v, g, refs) && c in g.publications && d in g.publications[c].conflicts
    requires p in g.publications && v.Matches(g.publications[p], d)
    ensures g.Excludes(Presence(c), Presence(p))
  {
    hide Ownership, ManifestEdges, ExclusiveEdges, Presence, Unit, Versions.Matches, PrivateNames, Owned,
      DistinctRefs, ManifestResolves;
    var key := EdgeKey(Presence(c), Presence(p), Conflicts);
    assert key in ConflictEdges(v, g.publications, c, g.publications[c].conflicts);
    assert key in ManifestEdges(v, g.publications, WholeRefs(items), refs);
  }

  lemma ExclusiveAssembled(items: seq<Item>, v: Versions, g: ResolvedGraph, refs: seq<Ref>, l: Ref, r: Ref)
    requires Finished(items, v, g, refs) && l in g.publications && r in g.publications && l != r
             && l.capsuleId == r.capsuleId
    ensures g.Excludes(Presence(l), Presence(r)) || g.Excludes(Presence(r), Presence(l))
  {
    hide Ownership, ManifestEdges, Presence, Unit, PrivateNames, Owned, DistinctRefs, ManifestResolves;
    var i :| 0 <= i < |refs| && refs[i] == l;
    var j :| 0 <= j < |refs| && refs[j] == r;
    if i < j {
      assert EdgeKey(Presence(l), Presence(r), Conflicts) in ExclusiveEdges(refs);
    } else {
      assert EdgeKey(Presence(r), Presence(l), Conflicts) in ExclusiveEdges(refs);
    }
  }

  lemma FinishedIsAssembled(items: seq<Item>, v: Versions, g: ResolvedGraph, refs: seq<Ref>)
    requires Finished(items, v, g, refs)
    ensures Assembled(g, v)
  {
    hide Finished, ServedByOne, ResolvedGraph.Excludes, ResolvedGraph.Binds, Versions.Matches, IsPrivate, Presence,
      Unit;
    OwnersAssembled(items, v, g, refs);
    forall c, q | c in g.publications && q in g.publications[c].requirements ensures ServedByOne(g, v, c, q) {
      RequirementAssembled(items, v, g, refs, c, q);
    }
    forall c, d, p | c in g.publications && d in g.publications[c].conflicts && p in g.publications
      && v.Matches(g.publications[p], d)
      ensures g.Excludes(Presence(c), Presence(p))
    {
      ConflictAssembled(items, v, g, refs, c, d, p);
    }
    forall l, r | l in g.publications && r in g.publications && l != r && l.capsuleId == r.capsuleId
      ensures g.Excludes(Presence(l), Presence(r)) || g.Excludes(Presence(r), Presence(l))
    {
      ExclusiveAssembled(items, v, g, refs, l, r);
    }
  }

  lemma KnownPayloads(publications: map<Ref, Publication>, refs: seq<Ref>, complete: set<Ref>, known: set<string>,
                      items: seq<Item>)
    requires InCatalogue(publications, refs, complete, known, items)
    ensures forall c | c in publications :: publications[c].Payload() <= known
  {
    forall c | c in publications ensures publications[c].Payload() <= known {
      var item :| item in items && item.publication.ref == c;
    }
  }

  lemma StickyMandatory(before: map<EdgeKey, bool>, keys: set<EdgeKey>, after: map<EdgeKey, bool>)
    requires AllMandatory(before, keys) && Sticky(before, after)
    ensures forall k | k in keys :: k in after && after[k]
  {
  }

  /** The dependencies and conflicts of every admitted atom are edges of the finished graph. */
  lemma LinksAssembled(items: seq<Item>, g: ResolvedGraph, edges: map<EdgeKey, bool>)
    requires Owned(g.atoms, g.owners, Admissions(items))
    requires forall id | id in g.atoms :: AtomResolves(g.publications, g.owners, g.atoms[id])
    requires forall k | k in AtomKeys(g.atoms) :: k in edges && edges[k]
    requires forall k | k in edges :: Edge(k.source, k.target, k.kind, edges[k]) in g.edges
    ensures AtomsLinked(g)
  {
    hide LocksHold, IsPrivate;
    forall id, target | id in g.atoms && target in g.atoms[id].requiresAtoms
      ensures g.Binds(id, target) && !IsPrivate(target)
    {
      assert EdgeKey(id, target, Requires) in AtomEdges(g.atoms[id]);
      assert EdgeKey(id, target, Requires) in AtomKeys(g.atoms);
    }
    forall id, target | id in g.atoms && target in g.atoms[id].conflictsWith ensures g.Excludes(id, target) {
      assert EdgeKey(id, target, Conflicts) in AtomEdges(g.atoms[id]);
      assert EdgeKey(id, target, Conflicts) in AtomKeys(g.atoms);
    }
  }

  lemma DeclarationsAssembled(items: seq<Item>, v: Versions, g: ResolvedGraph, refs: seq<Ref>,
                              edges: map<EdgeKey, bool>, known: set<string>)
    requires Finished(items, v, g, refs)
    requires forall p | p in AllDeclared(g.publications) ::
               Resolves(v, g.publications, g.owners, WholeRefs(items), known, p.0, p.1)
    requires forall c, e | (c, e) in AllDeclared(g.publications) ::
               Holds(edges, DeclaredEdges(v, g.publications, g.owners, WholeRefs(items), c, e), e.mandatory)
    requires forall k | k in edges :: Edge(k.source, k.target, k.kind, edges[k]) in g.edges
    ensures DeclarationsHold(g, v)
    ensures forall p | p in g.publications :: p in WholeRefs(items) <==> Complete(g, p)
  {
    hide Resolves, Holds, DeclaredEdges, DeclaredBy, DeclarationHolds, Complete, WholeRefs, Owned, ManifestResolves,
      ManifestEdges,
      ExclusiveEdges, Ownership, PrivateNames, DistinctRefs, AllMandatory;
    forall p | p in g.publications ensures p in WholeRefs(items) <==> Complete(g, p) {
      assert p in Refs(items);
      WholeMeansComplete(items, g, p);
    }
    forall c, e | c in g.publications && e in g.publications[c].declared && DeclaredBy(g.owners, c, e)
      ensures DeclarationHolds(g, v, c, e)
    {
      assert (c, e) in AllDeclared(g.publications);
      ResolvedHolds(g, v, edges, WholeRefs(items), known, c, e);
    }
  }

  // ------------------------------------------------------------------ exactly these edges

  /** The edges every assembly of the inventory makes, all of them mandatory. */
  function BaseEdges(g: ResolvedGraph, v: Versions, complete: set<Ref>, refs: seq<Ref>): set<EdgeKey>
    requires forall r | r in refs :: r in g.publications
  {
    Ownership(g.owners) + ManifestEdges(v, g.publications, complete, refs) + ExclusiveEdges(refs) + AtomKeys(g.atoms)
  }

  /** The graph has the base edges and those of the declarations, and no others. */
  ghost predicate ExactEdges(g: ResolvedGraph, v: Versions, complete: set<Ref>, refs: seq<Ref>) {
    && (forall r :: r in refs <==> r in g.publications)
    && (forall i, j | 0 <= i < j < |refs| :: refs[i] != refs[j])
    && forall e: Edge ::
         var k := EdgeKey(e.source, e.target, e.kind);
         var declared := EdgesOf(v, g.publications, g.owners, complete, AllDeclared(g.publications));
         var firm := EdgesOf(v, g.publications, g.owners, complete, Firm(AllDeclared(g.publications)));
         var base := BaseEdges(g, v, complete, refs);
         e in g.edges <==> k in base + declared && (e.mandatory <==> k in base + firm)
  }

  lemma EdgesExact(v: Versions, g: ResolvedGraph, complete: set<Ref>, refs: seq<Ref>, settled: map<EdgeKey, bool>,
                   edges: map<EdgeKey, bool>)
    requires forall r :: r in refs <==> r in g.publications
    requires forall i, j | 0 <= i < j < |refs| :: refs[i] != refs[j]
    requires AllMandatory(settled, BaseEdges(g, v, complete, refs))
    requires Added(v, g.publications, g.owners, complete, settled, edges, AllDeclared(g.publications))
    requires g.edges == set k | k in edges :: Edge(k.source, k.target, k.kind, edges[k])
    ensures ExactEdges(g, v, complete, refs)
  {
    hide BaseEdges, EdgesOf;
    forall e: Edge ensures e in g.edges <==>
        var k := EdgeKey(e.source, e.target, e.kind);
        k in edges && edges[k] == e.mandatory
    {
      var k := EdgeKey(e.source, e.target, e.kind);
      if k in edges && edges[k] == e.mandatory {
        assert Edge(k.source, k.target, k.kind, edges[k]) == e;
      }
    }
  }

  /** Why two nodes of the graph exclude each other. */
  ghost predicate Opposed(g: ResolvedGraph, v: Versions, x: string, y: string) {
    || (exists c, d, p :: c in g.publications && d in g.publications[c].conflicts && p in g.publications
                       && v.Matches(g.publications[p], d) && x == Presence(c) && y == Presence(p))
    || (exists l, r :: l in g.publications && r in g.publications && l != r && l.capsuleId == r.capsuleId
                    && x == Presence(l) && y == Presence(r))
    || (exists id :: id in g.atoms && y in g.atoms[id].conflictsWith && x == g.atoms[id].id)
    || (exists c, e ::
            c in g.publications && e in g.publications[c].declared && e.kind.Conflicts? && Opposes(g, v, c, e, x, y))
  }

  /**
   The declaration, made by a capsule that owns its source, excludes the node: an accepted version,
   or the atom it names.
   */
  predicate Opposes(g: ResolvedGraph, v: Versions, c: Ref, e: Declaration, x: string, y: string) {
    && DeclaredBy(g.owners, c, e) && x == SourceNode(c, e)
    && if Named(g.publications, e.target) == {} then y == e.target && v.Admit(e, OwnersOf(g.owners, e.target))
       else exists p :: p in Named(g.publications, e.target) && v.Admit(e, {p}) && y == Presence(p)
  }

  lemma {:induction false} ManifestConflict(g: ResolvedGraph, v: Versions, complete: set<Ref>, rs: seq<Ref>, k: EdgeKey)
    requires forall r | r in rs :: r in g.publications
    requires k in ManifestEdges(v, g.publications, complete, rs) && k.kind.Conflicts?
    ensures exists c :: c in rs && k in ConflictEdges(v, g.publications, c, g.publications[c].conflicts)
    decreases |rs|
  {
    hide RequirementEdges, ConflictEdges;
    var c := rs[|rs| - 1];
    if k in ManifestEdges(v, g.publications, complete, rs[..|rs| - 1]) {
      ManifestConflict(g, v, complete, rs[..|rs| - 1], k);
    } else {
      NoConflictsRequired(v, g.publications, complete, c, g.publications[c].requirements);
      assert c in rs;
    }
  }

  lemma NoConflictsRequired(v: Versions, publications: map<Ref, Publication>, complete: set<Ref>, c: Ref,
                            qs: seq<string>)
    requires c in publications
    ensures forall k | k in RequirementEdges(v, publications, complete, c, qs) :: k.kind.Requires?
  {
  }

  lemma BaseConflict(g: ResolvedGraph, v: Versions, complete: set<Ref>, refs: seq<Ref>, k: EdgeKey)
    requires forall r :: r in refs <==> r in g.publications
    requires forall i, j | 0 <= i < j < |refs| :: refs[i] != refs[j]
    requires k in BaseEdges(g, v, complete, refs) && k.kind.Conflicts?
    ensures Opposed(g, v, k.source, k.target)
  {
    hide Presence, Unit, Versions.Matches, ManifestEdges, Opposes, ConflictEdges;
    if k in ManifestEdges(v, g.publications, complete, refs) {
      ManifestConflict(g, v, complete, refs, k);
      var c :| c in refs && k in ConflictEdges(v, g.publications, c, g.publications[c].conflicts);
      ConflictOrigin(g, v, c, k);
    } else if k in ExclusiveEdges(refs) {
      var i, j :| 0 <= i < j < |refs| && refs[i].capsuleId == refs[j].capsuleId
                  && k == EdgeKey(Presence(refs[i]), Presence(refs[j]), Conflicts);
      assert refs[i] in refs && refs[j] in refs;
    } else if k in AtomKeys(g.atoms) {
      var id :| id in g.atoms && k in AtomEdges(g.atoms[id]);
    }
  }

  lemma ConflictOrigin(g: ResolvedGraph, v: Versions, c: Ref, k: EdgeKey)
    requires c in g.publications && k in ConflictEdges(v, g.publications, c, g.publications[c].conflicts)
    ensures Opposed(g, v, k.source, k.target)
  {
    hide Presence, Versions.Matches, Opposes;
    var d, p :| d in g.publications[c].conflicts && p in g.publications && v.Matches(g.publications[p], d)
                && k == EdgeKey(Presence(c), Presence(p), Conflicts);
  }

  lemma DeclaredConflict(g: ResolvedGraph, v: Versions, complete: set<Ref>, c: Ref, e: Declaration, k: EdgeKey)
    requires c in g.publications && e in g.publications[c].declared && k.kind.Conflicts?
    requires k in DeclaredEdges(v, g.publications, g.owners, complete, c, e)
    ensures Opposed(g, v, k.source, k.target)
  {
    hide Presence, Unit, Versions.Matches, Versions.Admit, Answering;
    assert e.kind.Conflicts? && Opposes(g, v, c, e, k.source, k.target);
  }

  /**
   Every conflict a selection is reported to have comes from a manifest, from two versions, from an
   atom or from a declaration.
   */
  lemma ConflictsAreDeclared(g: ResolvedGraph, v: Versions, complete: set<Ref>, refs: seq<Ref>, selected: set<string>,
                             pair: set<string>)
    requires ExactEdges(g, v, complete, refs)
    requires g.ConflictsFor(selected).Ok? && pair in g.ConflictsFor(selected).value
    ensures exists x, y :: pair == {x, y} && Opposed(g, v, x, y)
  {
    hide BaseEdges, EdgesOf, Opposed;
    var e :| e in g.edges && e.kind.Conflicts? && pair == {e.source, e.target};
    var k := EdgeKey(e.source, e.target, e.kind);
    if k in BaseEdges(g, v, complete, refs) {
      BaseConflict(g, v, complete, refs, k);
    } else {
      ConflictAsked(g, v, complete, k);
    }
  }

  lemma ConflictAsked(g: ResolvedGraph, v: Versions, complete: set<Ref>, k: EdgeKey)
    requires k in EdgesOf(v, g.publications, g.owners, complete, AllDeclared(g.publications)) && k.kind.Conflicts?
    ensures Opposed(g, v, k.source, k.target)
  {
    hide Opposed, DeclaredEdges;
    var p :| p in AllDeclared(g.publications) && k in DeclaredEdges(v, g.publications, g.owners, complete, p.0, p.1);
    DeclaredConflict(g, v, complete, p.0, p.1, k);
  }

  // --------------------------------------------------------------------- required interfaces

  lemma RootsServed(items: seq<Item>, v: Versions, g: ResolvedGraph, refs: seq<Ref>, interfaces: seq<string>)
    requires Finished(items, v, g, refs) && g.roots == RootAtoms(g.publications, WholeRefs(items), interfaces)
    requires forall q | q in interfaces :: RootResolves(v, g.publications, WholeRefs(items), q)
    ensures RootsServe(g, interfaces)
  {
    hide Finished;
    forall q | q in interfaces
      ensures exists p ::
                Offers(g, q, p) && (forall p' | Offers(g, q, p') :: p' == p) && g.publications[p].Payload() <= g.roots
    {
      RootServed(items, v, g, refs, interfaces, q);
    }
  }

  lemma RootServed(items: seq<Item>, v: Versions, g: ResolvedGraph, refs: seq<Ref>, interfaces: seq<string>, q: string)
    requires Finished(items, v, g, refs) && g.roots == RootAtoms(g.publications, WholeRefs(items), interfaces)
    requires q in interfaces && RootResolves(v, g.publications, WholeRefs(items), q)
    ensures exists p ::
              Offers(g, q, p) && (forall p' | Offers(g, q, p') :: p' == p) && g.publications[p].Payload() <= g.roots
  {
    hide Ownership, ManifestEdges, ExclusiveEdges, Versions.Matches, PrivateNames, Owned, Complete, DistinctRefs,
      ManifestResolves,
      WholeRefs;
    var candidates := RootCandidates(g.publications, WholeRefs(items), q);
    var p :| p in candidates;
    SingletonIs(candidates, p);
    forall r ensures Offers(g, q, r) <==> r in candidates {
      CompleteIsPublished(g, r);
      if r in g.publications {
        assert r in Refs(items);
        WholeMeansComplete(items, g, r);
      }
    }
    assert Offers(g, q, p);
  }

  /** Every stage of assembly succeeds on the inventory. */
  ghost predicate Settles(atoms: map<string, Atom>, owners: map<string, set<Ref>>, publications: map<Ref, Publication>,
                          items: seq<Item>, interfaces: seq<string>, requiredAtoms: set<string>, v: Versions) {
    && (forall q | q in interfaces :: RootResolves(v, publications, WholeRefs(items), q))
    && requiredAtoms <= atoms.Keys
    && (forall c | c in publications :: ManifestResolves(v, publications, WholeRefs(items), c))
    && (forall id | id in atoms :: AtomResolves(publications, owners, atoms[id]))
    && (forall p | p in AllDeclared(publications) ::
          Resolves(v, publications, owners, WholeRefs(items), KnownAtoms(items), p.0, p.1))
  }

  /** The admission has a consistent inventory on which every stage succeeds. */
  ghost predicate Resolvable(items: seq<Item>, interfaces: seq<string>, requiredAtoms: set<string>, v: Versions) {
    && AtomsAgree(Admissions(items))
    && !PrivateNames(items)
    && exists atoms, owners, publications, refs ::
         && Owned(atoms, owners, Admissions(items))
         && InCatalogue(publications, refs, WholeRefs(items), KnownAtoms(items), items)
         && Settles(atoms, owners, publications, items, interfaces, requiredAtoms, v)
  }

  lemma CatalogueUnique(p: map<Ref, Publication>, rs: seq<Ref>, p': map<Ref, Publication>, rs': seq<Ref>,
                        items: seq<Item>)
    requires InCatalogue(p, rs, WholeRefs(items), KnownAtoms(items), items)
    requires InCatalogue(p', rs', WholeRefs(items), KnownAtoms(items), items)
    ensures p == p'
  {
    hide WholeRefs, KnownAtoms;
    forall r | r in p ensures p[r] == p'[r] {
      var item :| item in items && item.publication.ref == r;
    }
  }

  lemma OwnedUnique(atoms: map<string, Atom>, owners: map<string, set<Ref>>, atoms': map<string, Atom>,
                    owners': map<string, set<Ref>>,
                    admissions: set<(Atom, Ref)>)
    requires Owned(atoms, owners, admissions) && Owned(atoms', owners', admissions)
    ensures atoms == atoms' && owners == owners'
  {
    hide Owned;
    OwnedWithin(atoms, owners, atoms', owners', admissions);
    OwnedWithin(atoms', owners', atoms, owners, admissions);
    assert forall id | id in owners :: owners[id] == owners'[id];
  }

  lemma OwnedWithin(atoms: map<string, Atom>, owners: map<string, set<Ref>>, atoms': map<string, Atom>,
                    owners': map<string, set<Ref>>,
                    admissions: set<(Atom, Ref)>)
    requires Owned(atoms, owners, admissions) && Owned(atoms', owners', admissions)
    ensures forall id | id in atoms :: id in atoms' && atoms'[id] == atoms[id]
    ensures forall id | id in owners :: id in owners' && owners[id] <= owners'[id]
  {
    forall id, r | id in owners && r in owners[id] ensures id in atoms' && atoms'[id] == atoms[id] && r in owners'[id] {
      assert (atoms[id], r) in admissions;
    }
    forall id | id in atoms ensures id in atoms' && atoms'[id] == atoms[id] {
      var r :| r in owners[id];
    }
  }

  /** The inventory is determined by the admission, so one whose stages fail cannot be resolved at all. */
  lemma NotResolvable(atoms: map<string, Atom>, owners: map<string, set<Ref>>, publications: map<Ref, Publication>,
                      refs: seq<Ref>,
                      items: seq<Item>, interfaces: seq<string>, requiredAtoms: set<string>, v: Versions)
    requires Owned(atoms, owners, Admissions(items))
    requires InCatalogue(publications, refs, WholeRefs(items), KnownAtoms(items), items)
    ensures Resolvable(items, interfaces, requiredAtoms, v) ==>
              Settles(atoms, owners, publications, items, interfaces, requiredAtoms, v)
  {
    hide Owned, InCatalogue, Settles, AtomsAgree, PrivateNames, Admissions, WholeRefs, KnownAtoms;
    if Resolvable(items, interfaces, requiredAtoms, v) {
      var atoms', owners', publications', refs' :|
        && Owned(atoms', owners', Admissions(items))
        && InCatalogue(publications', refs', WholeRefs(items), KnownAtoms(items), items)
        && Settles(atoms', owners', publications', items, interfaces, requiredAtoms, v);
      CatalogueUnique(publications, refs, publications', refs', items);
      OwnedUnique(atoms, owners, atoms', owners', Admissions(items));
    }
  }

  lemma Unresolvable(items: seq<Item>, interfaces: seq<string>, requiredAtoms: set<string>, v: Versions)
    requires !AtomsAgree(Admissions(items)) || PrivateNames(items)
    ensures !Resolvable(items, interfaces, requiredAtoms, v)
  {
  }

  lemma IsResolvable(atoms: map<string, Atom>, owners: map<string, set<Ref>>, publications: map<Ref, Publication>,
                     refs: seq<Ref>,
                     items: seq<Item>, interfaces: seq<string>, requiredAtoms: set<string>, v: Versions)
    requires AtomsAgree(Admissions(items)) && !PrivateNames(items)
    requires Owned(atoms, owners, Admissions(items))
    requires InCatalogue(publications, refs, WholeRefs(items), KnownAtoms(items), items)
    requires Settles(atoms, owners, publications, items, interfaces, requiredAtoms, v)
    ensures Resolvable(items, interfaces, requiredAtoms, v)
  {
    hide Owned, InCatalogue, Settles, AtomsAgree, PrivateNames, Admissions, WholeRefs, KnownAtoms;
  }

  /** Assembles the graph of an admission for a task, or reports why it cannot be resolved. */
  method ResolveGraph(items: seq<Item>, interfaces: seq<string>, requiredAtoms: set<string>, v: Versions)
    returns (r: Result<ResolvedGraph, CompileError>)
    requires DistinctRefs(items)
    ensures r.Ok? <==> Resolvable(items, interfaces, requiredAtoms, v)
    ensures r == Err(DuplicateAtom) <== !AtomsAgree(Admissions(items))
    ensures r.Ok? ==> Assembled(r.value, v) && AtomsLinked(r.value) && DeclarationsHold(r.value, v)
    ensures r.Ok? ==> && Owned(r.value.atoms, r.value.owners, Admissions(items))
                      && r.value.publications.Keys == Refs(items)
                      && requiredAtoms <= r.value.atoms.Keys
                      && r.value.roots <= r.value.atoms.Keys
    ensures r.Ok? ==> r.value.roots == RootAtoms(r.value.publications, WholeRefs(items), interfaces)
    ensures r.Ok? ==> RootsServe(r.value, interfaces)
    ensures r.Ok? ==> exists refs :: ExactEdges(r.value, v, WholeRefs(items), refs)
    ensures r.Ok? ==> forall p | p in r.value.publications :: p in WholeRefs(items) <==> Complete(r.value, p)
  {
    hide Owned, Ownership, InCatalogue, PrivateNames, AtomsAgree, Admissions, ManifestEdges, ExclusiveEdges,
      RootAtoms, RootCandidates, Resolves,
         Resolvable, Holds, Sticky, DeclaredEdges, Added, RootResolves, RootsServe, ExactEdges, AtomKeys,
         ManifestResolves, AtomResolves, AtomEdges, Assembled, DistinctRefs, WholeRefs, KnownAtoms, Refs;
    var builder := new Builder(v);
    var error := builder.Inventory(items);
    if error.Some? {
      Unresolvable(items, interfaces, requiredAtoms, v);
      return Err(error.value);
    }
    CatalogueFacts(builder.publications, builder.refs, builder.complete, builder.known, items);
    NotResolvable(builder.atoms, builder.owners, builder.publications, builder.refs, items, interfaces, requiredAtoms,
                  v);
    var roots := builder.Roots(interfaces, requiredAtoms);
    if roots.Err? {
      return Err(roots.error);
    }
    RootsAdmitted(items, builder.atoms, builder.owners, builder.publications, builder.refs, interfaces);
    error := builder.Manifests();
    if error.Some? {
      return Err(error.value);
    }
    error := builder.AtomicEdges();
    if error.Some? {
      return Err(error.value);
    }
    KnownPayloads(builder.publications, builder.refs, builder.complete, builder.known, items);
    ghost var settled := builder.edges;
    error := builder.Explicits();
    if error.Some? {
      return Err(error.value);
    }
    var edges := builder.edges;
    AddedHolds(v, builder.publications, builder.owners, WholeRefs(items), settled, edges,
               AllDeclared(builder.publications));
    StickyMandatory(settled, settled.Keys, edges);
    var g := ResolvedGraph(builder.atoms, builder.owners, builder.publications,
                           set k | k in edges :: Edge(k.source, k.target, k.kind, edges[k]), roots.value);
    IsResolvable(builder.atoms, builder.owners, builder.publications, builder.refs, items, interfaces, requiredAtoms,
                 v);
    FinishedIsAssembled(items, v, g, builder.refs);
    LinksAssembled(items, g, edges);
    DeclarationsAssembled(items, v, g, builder.refs, edges, builder.known);
    RootsServed(items, v, g, builder.refs, interfaces);
    EdgesExact(v, g, WholeRefs(items), builder.refs, settled, edges);
    return Ok(g);
  }
}
