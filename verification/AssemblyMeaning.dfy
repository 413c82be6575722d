/**
 When an admission can be assembled, and where the requirements of the assembled graph come from,
 in terms of the admitted capsules themselves.
 */
module AssemblyMeaning {
  import opened Common
  import opened Closure
  import opened CapsuleGraph
  import opened Declarations
  import opened Assembly
  import opened GraphMeaning

  // ------------------------------------------------------------------ what may be assembled

  /** The name is kept for marker nodes. */
  predicate Reserved(name: string) {
    "__ccs_m4__:" <= name
  }

  predicate HasAtom(item: Item, id: string) {
    exists a :: a in item.publication.atoms && a.id == id
  }

  /** The capsule brings the atom into the graph. */
  predicate Admits(item: Item, id: string) {
    id in item.admitted && HasAtom(item, id)
  }

  /** The capsule has atoms, and all of them were admitted. */
  predicate IsWhole(item: Item) {
    item.publication.atoms != [] && forall a | a in item.publication.atoms :: a.id in item.admitted
  }

  predicate Locks(c: Item, p: Item) {
    p.publication.ref in c.publication.locks
  }

  /** Admitted atoms of one id are the same atom, and no atom or capsule takes a reserved name. */
  predicate Agreed(items: seq<Item>) {
    && (forall i, j, a, b | && i in items && a in i.publication.atoms && a.id in i.admitted
                            && j in items && b in j.publication.atoms && b.id in j.admitted && a.id == b.id :: a == b)
    && (forall i, a | i in items && a in i.publication.atoms :: !Reserved(a.id))
    && (forall i | i in items :: !Reserved(i.publication.ref.capsuleId))
  }

  predicate Offering(p: Item, q: string) {
    IsWhole(p) && q in p.publication.interfaces
  }

  /** The interface can be read, and exactly one whole capsule provides it. */
  predicate InterfaceFine(v: Versions, items: seq<Item>, q: string) {
    && v.family(q).Some?
    && exists p :: p in items && Offering(p, q) && forall p' | p' in items && Offering(p', q) :: p' == p
  }

  predicate Providing(v: Versions, c: Item, p: Item, q: string) {
    && v.declaration(q).Some?
    && IsWhole(p) && Locks(c, p)
    && Publishes(v, p.publication, v.declaration(q).value.0, v.declaration(q).value.1)
  }

  /** Each requirement has exactly one whole, locked and accepted provider; each conflict can be read. */
  predicate ManifestFine(v: Versions, items: seq<Item>, c: Item) {
    && (forall q | q in c.publication.requirements ::
          exists p :: && p in items && Providing(v, c, p, q)
                      && forall p' | p' in items && Providing(v, c, p', q) :: p' == p)
    && (forall d | d in c.publication.conflicts :: v.declaration(d).Some?)
  }

  /** Every capsule that brings an atom this one requires is locked, and no reserved name is used. */
  predicate AtomFine(items: seq<Item>, c: Item, a: Atom) {
    && (forall target | target in a.requiresAtoms ::
          !Reserved(target) && forall p | p in items && Admits(p, target) && p != c :: Locks(c, p))
    && (forall target | target in a.conflictsWith :: !Reserved(target))
  }

  predicate NamesCapsule(items: seq<Item>, name: string) {
    exists p :: p in items && p.publication.ref.capsuleId == name
  }

  predicate NamesAtom(items: seq<Item>, name: string) {
    exists p :: p in items && HasAtom(p, name)
  }

  predicate NameFine(items: seq<Item>, name: string) {
    !Reserved(name) && !(NamesCapsule(items, name) && NamesAtom(items, name))
  }

  predicate Accepts(v: Versions, e: Declaration, p: Item) {
    e.constraint.Some? ==> v.satisfies(p.publication.ref.version, e.constraint.value)
  }

  predicate CanAnswer(v: Versions, c: Item, e: Declaration, p: Item) {
    p.publication.ref.capsuleId == e.target && IsWhole(p) && Accepts(v, e, p) && (p == c || Locks(c, p))
  }

  /**
   The declaration has a readable constraint, names that mean one thing and a source of its own
   capsule; a binding one whose source is present has exactly one whole, accepted and locked
   version to require, or only accepted and locked capsules that bring the atom it requires.
   */
  predicate DeclarationFine(v: Versions, items: seq<Item>, c: Item, e: Declaration) {
    && (e.constraint.Some? ==> v.constraint(e.constraint.value))
    && NameFine(items, e.source) && NameFine(items, e.target)
    && (e.source == c.publication.ref.capsuleId || HasAtom(c, e.source))
    && (e.kind == Requires && e.mandatory && (e.source == c.publication.ref.capsuleId || Admits(c, e.source)) ==>
          if NamesCapsule(items, e.target) then
            exists p :: && p in items && CanAnswer(v, c, e, p)
                        && forall p' | p' in items && CanAnswer(v, c, e, p') :: p' == p
          else forall p | p in items && Admits(p, e.target) :: Accepts(v, e, p) && (p == c || Locks(c, p)))
  }

  predicate Fine(items: seq<Item>, interfaces: seq<string>, required: set<string>, v: Versions) {
    && (forall q | q in interfaces :: InterfaceFine(v, items, q))
    && (forall id | id in required :: exists i :: i in items && Admits(i, id))
    && (forall c | c in items :: ManifestFine(v, items, c))
    && (forall c, a | c in items && a in c.publication.atoms && a.id in c.admitted :: AtomFine(items, c, a))
    && (forall c, e | c in items && e in c.publication.declared :: DeclarationFine(v, items, c, e))
  }

  // ------------------------------------------------------------- the inventory of an admission

  /** The catalogue lists the capsules of the admission, each once. */
  ghost predicate Catalogued(items: seq<Item>, publications: map<Ref, Publication>) {
    && (forall i, j | i in items && j in items && i.publication.ref == j.publication.ref :: i == j)
    && (forall i | i in items :: i.publication.ref in publications
                              && publications[i.publication.ref] == i.publication)
    && (forall r | r in publications :: exists i :: i in items && i.publication.ref == r)
  }

  predicate Owns(owners: map<string, set<Ref>>, i: Item, id: string) {
    id in owners && i.publication.ref in owners[id]
  }

  /** The atoms are those the capsules bring, owned by the capsules that bring them. */
  ghost predicate Stocked(items: seq<Item>, atoms: map<string, Atom>, owners: map<string, set<Ref>>) {
    && atoms.Keys == owners.Keys
    && (forall i, id | i in items :: Admits(i, id) <==> Owns(owners, i, id))
    && (forall id, r | id in owners && r in owners[id] :: exists i :: i in items && i.publication.ref == r)
    && (forall id | id in owners :: owners[id] != {})
    && (forall i, a | i in items && a in i.publication.atoms && a.id in i.admitted ::
          a.id in atoms && atoms[a.id] == a)
  }

  lemma IsCatalogued(items: seq<Item>, publications: map<Ref, Publication>, refs: seq<Ref>)
    requires DistinctRefs(items) && InCatalogue(publications, refs, WholeRefs(items), KnownAtoms(items), items)
    ensures Catalogued(items, publications)
  {
    hide WholeRefs, KnownAtoms;
    forall i, j | i in items && j in items && i.publication.ref == j.publication.ref ensures i == j {
      SameItem(items, i.publication.ref);
    }
  }

  lemma AdmittedOwns(items: seq<Item>, atoms: map<string, Atom>, owners: map<string, set<Ref>>, i: Item, a: Atom)
    requires Owned(atoms, owners, Admissions(items)) && i in items && a in i.publication.atoms && a.id in i.admitted
    ensures a.id in atoms && atoms[a.id] == a && Owns(owners, i, a.id)
  {
    assert (a, i.publication.ref) in Admissions(items);
  }

  lemma OwnerAdmits(items: seq<Item>, atoms: map<string, Atom>, owners: map<string, set<Ref>>, id: string, r: Ref)
    requires Owned(atoms, owners, Admissions(items)) && id in owners && r in owners[id]
    ensures exists i :: i in items && i.publication.ref == r && Admits(i, id)
  {
    assert (atoms[id], r) in Admissions(items);
    var i, a :| && i in items && a in i.publication.atoms && a.id in i.admitted && a == atoms[id]
                && i.publication.ref == r;
    assert HasAtom(i, id);
  }

  lemma IsStocked(items: seq<Item>, atoms: map<string, Atom>, owners: map<string, set<Ref>>,
                  publications: map<Ref, Publication>)
    requires Catalogued(items, publications) && Owned(atoms, owners, Admissions(items))
    ensures Stocked(items, atoms, owners)
  {
    hide Admissions, Admits, Owns;
    forall i, a | i in items && a in i.publication.atoms && a.id in i.admitted
      ensures a.id in atoms && atoms[a.id] == a && Owns(owners, i, a.id)
    {
      AdmittedOwns(items, atoms, owners, i, a);
    }
    forall i, id | i in items ensures Admits(i, id) <==> Owns(owners, i, id) {
      if Admits(i, id) {
        var a := BroughtAtom(i, id);
      }
      if Owns(owners, i, id) {
        assert id in owners && i.publication.ref in owners[id] by {
          OwnsMeans(owners, i, id);
        }
        OwnerAdmits(items, atoms, owners, id, i.publication.ref);
      }
    }
    forall id, r | id in owners && r in owners[id] ensures exists i :: i in items && i.publication.ref == r {
      OwnerAdmits(items, atoms, owners, id, r);
    }
  }

  lemma OwnsMeans(owners: map<string, set<Ref>>, i: Item, id: string)
    ensures Owns(owners, i, id) <==> id in owners && i.publication.ref in owners[id]
  {
  }

  lemma BroughtAtom(i: Item, id: string) returns (a: Atom)
    requires Admits(i, id)
    ensures a in i.publication.atoms && a.id == id && id in i.admitted
  {
    a :| a in i.publication.atoms && a.id == id;
  }

  // ------------------------------------------------------------------------ stage by stage

  lemma WholeMeans(items: seq<Item>, publications: map<Ref, Publication>, c: Item)
    requires Catalogued(items, publications) && c in items
    ensures c.publication.ref in WholeRefs(items) <==> IsWhole(c)
  {
    assert IsWhole(c) <==> c.Whole();
  }

  lemma OneMeans<T>(s: set<T>)
    ensures |s| == 1 <==> exists x :: x in s && forall y | y in s :: y == x
  {
    if |s| == 1 {
      var x :| x in s;
      assert |s - {x}| == 0;
      assert s == {x};
    }
    if x :| x in s && forall y | y in s :: y == x {
      assert s == {x};
    }
  }

  /** A set of references with one member is a property that one capsule has. */
  lemma OneItem(items: seq<Item>, publications: map<Ref, Publication>, refs: set<Ref>, has: Item -> bool)
    requires Catalogued(items, publications) && refs <= publications.Keys
    requires forall i | i in items :: i.publication.ref in refs <==> has(i)
    ensures |refs| == 1 <==> exists p :: p in items && has(p) && forall p' | p' in items && has(p') :: p' == p
  {
    hide Catalogued;
    OneMeans(refs);
    if |refs| == 1 {
      var r :| r in refs && forall r' | r' in refs :: r' == r;
      var p := ItemOf(items, publications, r);
      forall p' | p' in items && has(p') ensures p' == p {
        Same(items, publications, p', p);
      }
    }
    if p :| p in items && has(p) && forall p' | p' in items && has(p') :: p' == p {
      forall r | r in refs ensures r == p.publication.ref {
        var _ := ItemOf(items, publications, r);
      }
    }
  }

  lemma ItemOf(items: seq<Item>, publications: map<Ref, Publication>, r: Ref) returns (i: Item)
    requires Catalogued(items, publications) && r in publications
    ensures i in items && i.publication.ref == r
  {
    i :| i in items && i.publication.ref == r;
  }

  lemma InterfaceMeans(items: seq<Item>, publications: map<Ref, Publication>, v: Versions, q: string)
    requires Catalogued(items, publications)
    ensures RootResolves(v, publications, WholeRefs(items), q) <==> InterfaceFine(v, items, q)
  {
    hide WholeRefs, IsWhole, Catalogued;
    var refs := RootCandidates(publications, WholeRefs(items), q);
    forall i | i in items ensures i.publication.ref in refs <==> Offering(i, q) {
      Listed(items, publications, i);
      WholeMeans(items, publications, i);
    }
    OneItem(items, publications, refs, i => Offering(i, q));
  }

  lemma Listed(items: seq<Item>, publications: map<Ref, Publication>, i: Item)
    requires Catalogued(items, publications) && i in items
    ensures i.publication.ref in publications && publications[i.publication.ref] == i.publication
  {
  }

  lemma ManifestMeans(items: seq<Item>, publications: map<Ref, Publication>, v: Versions, c: Item)
    requires Catalogued(items, publications) && c in items && c.publication.ref in publications
    ensures ManifestResolves(v, publications, WholeRefs(items), c.publication.ref) <==> ManifestFine(v, items, c)
  {
    hide WholeRefs, IsWhole, Catalogued, Candidates, Providing;
    Listed(items, publications, c);
    forall q | q in c.publication.requirements
      ensures RequirementResolves(v, publications, WholeRefs(items), c.publication.ref, q) <==>
                exists p :: && p in items && Providing(v, c, p, q)
                            && forall p' | p' in items && Providing(v, c, p', q) :: p' == p
    {
      ProviderMeans(items, publications, v, c, q);
    }
  }

  lemma ProviderMeans(items: seq<Item>, publications: map<Ref, Publication>, v: Versions, c: Item, q: string)
    requires Catalogued(items, publications) && c in items && c.publication.ref in publications
    ensures RequirementResolves(v, publications, WholeRefs(items), c.publication.ref, q) <==>
              exists p :: && p in items && Providing(v, c, p, q)
                          && forall p' | p' in items && Providing(v, c, p', q) :: p' == p
  {
    hide WholeRefs, IsWhole, Catalogued, Versions.Matches, Publishes;
    var refs := Candidates(v, publications, WholeRefs(items), c.publication.ref, q);
    Listed(items, publications, c);
    if v.declaration(q).Some? {
      forall i | i in items ensures i.publication.ref in refs <==> Providing(v, c, i, q) {
        Listed(items, publications, i);
        WholeMeans(items, publications, i);
        MatchesMeans(v, i.publication, q);
      }
      OneItem(items, publications, refs, i => Providing(v, c, i, q));
    }
  }

  lemma AtomMeans(items: seq<Item>, atoms: map<string, Atom>, owners: map<string, set<Ref>>,
                  publications: map<Ref, Publication>, id: string)
    requires Catalogued(items, publications) && Stocked(items, atoms, owners) && id in atoms && atoms[id].id == id
    ensures AtomResolves(publications, owners, atoms[id]) <==>
              forall c | c in items && Admits(c, id) :: AtomFine(items, c, atoms[id])
  {
    hide Admits, Catalogued, Stocked;
    forall target ensures LocksHold(publications, owners, id, target) <==>
        forall c, p | c in items && Admits(c, id) && p in items && Admits(p, target) && p != c :: Locks(c, p)
    {
      LocksMean(items, atoms, owners, publications, id, target);
    }
    var _ := SomeOwner(items, atoms, owners, publications, id);
  }

  lemma SomeOwner(items: seq<Item>, atoms: map<string, Atom>, owners: map<string, set<Ref>>,
                  publications: map<Ref, Publication>, id: string) returns (c: Item)
    requires Catalogued(items, publications) && Stocked(items, atoms, owners) && id in atoms
    ensures c in items && Admits(c, id)
  {
    hide Admits;
    var r :| r in owners[id];
    c :| c in items && c.publication.ref == r;
    assert Owns(owners, c, id);
  }

  lemma LocksMean(items: seq<Item>, atoms: map<string, Atom>, owners: map<string, set<Ref>>,
                  publications: map<Ref, Publication>, id: string, target: string)
    requires Catalogued(items, publications) && Stocked(items, atoms, owners)
    ensures LocksHold(publications, owners, id, target) <==>
              forall c, p | c in items && Admits(c, id) && p in items && Admits(p, target) && p != c :: Locks(c, p)
  {
    hide Admits;
    if LocksHold(publications, owners, id, target) {
      forall c, p | c in items && Admits(c, id) && p in items && Admits(p, target) && p != c ensures Locks(c, p) {
        assert Owns(owners, c, id) && Owns(owners, p, target);
      }
    }
    if forall c, p | c in items && Admits(c, id) && p in items && Admits(p, target) && p != c :: Locks(c, p) {
      if id in owners && target in owners {
        forall r, s | r in owners[id] && s in owners[target] && r != s
          ensures r in publications && s in publications[r].locks
        {
          var c :| c in items && c.publication.ref == r;
          var p :| p in items && p.publication.ref == s;
          assert Owns(owners, c, id) && Owns(owners, p, target);
          assert Locks(c, p);
        }
      }
    }
  }

  lemma NamesMean(items: seq<Item>, publications: map<Ref, Publication>, name: string)
    requires Catalogued(items, publications)
    ensures Named(publications, name) != {} <==> NamesCapsule(items, name)
    ensures name in KnownAtoms(items) <==> NamesAtom(items, name)
    ensures NameOk(publications, KnownAtoms(items), name) <==> NameFine(items, name)
  {
    if NamesCapsule(items, name) {
      var p :| p in items && p.publication.ref.capsuleId == name;
      assert p.publication.ref in Named(publications, name);
    }
    if r :| r in Named(publications, name) {
      var p :| p in items && p.publication.ref == r;
    }
    if NamesAtom(items, name) {
      var p :| p in items && HasAtom(p, name);
      var a :| a in p.publication.atoms && a.id == name;
    }
  }

  lemma DeclarationMeans(items: seq<Item>, atoms: map<string, Atom>, owners: map<string, set<Ref>>,
                         publications: map<Ref, Publication>, v: Versions, c: Item, e: Declaration)
    requires Catalogued(items, publications) && Stocked(items, atoms, owners)
    requires c in items && c.publication.ref in publications
    ensures Resolves(v, publications, owners, WholeRefs(items), KnownAtoms(items), c.publication.ref, e) <==>
              DeclarationFine(v, items, c, e)
  {
    hide Catalogued, Stocked, WholeRefs, KnownAtoms, NameOk, NameFine, Admits, IsWhole, CanAnswer, Named,
      Answering, Versions.Admit, Accepts, OwnersOf, Locks;
    Listed(items, publications, c);
    NamesMean(items, publications, e.source);
    NamesMean(items, publications, e.target);
    SourceMeans(items, atoms, owners, c, e);
    PayloadMeans(c, e.source);
    if e.kind == Requires {
      VersionMeans(items, publications, v, c, e);
      HoldersMean(items, atoms, owners, publications, v, c, e);
    }
  }

  lemma PayloadMeans(c: Item, id: string)
    ensures id in c.publication.Payload() <==> HasAtom(c, id)
  {
  }

  lemma SourceMeans(items: seq<Item>, atoms: map<string, Atom>, owners: map<string, set<Ref>>, c: Item, e: Declaration)
    requires Stocked(items, atoms, owners) && c in items
    ensures DeclaredBy(owners, c.publication.ref, e) <==>
              e.source == c.publication.ref.capsuleId || Admits(c, e.source)
  {
    hide Admits;
    assert Admits(c, e.source) <==> Owns(owners, c, e.source);
  }

  lemma VersionMeans(items: seq<Item>, publications: map<Ref, Publication>, v: Versions, c: Item, e: Declaration)
    requires Catalogued(items, publications) && c in items && c.publication.ref in publications && e.kind == Requires
    ensures |Answering(v, publications, WholeRefs(items), c.publication.ref, e)| == 1 <==>
              exists p :: && p in items && CanAnswer(v, c, e, p)
                          && forall p' | p' in items && CanAnswer(v, c, e, p') :: p' == p
  {
    hide WholeRefs, IsWhole, Catalogued;
    var refs := Answering(v, publications, WholeRefs(items), c.publication.ref, e);
    Listed(items, publications, c);
    forall i | i in items ensures i.publication.ref in refs <==> CanAnswer(v, c, e, i) {
      Listed(items, publications, i);
      WholeMeans(items, publications, i);
      Same(items, publications, i, c);
      assert v.Admit(e, {i.publication.ref}) <==> Accepts(v, e, i);
    }
    OneItem(items, publications, refs, i => CanAnswer(v, c, e, i));
  }

  lemma Same(items: seq<Item>, publications: map<Ref, Publication>, i: Item, j: Item)
    requires Catalogued(items, publications) && i in items && j in items
    ensures i.publication.ref == j.publication.ref <==> i == j
  {
  }

  lemma HoldersMean(items: seq<Item>, atoms: map<string, Atom>, owners: map<string, set<Ref>>,
                    publications: map<Ref, Publication>, v: Versions, c: Item, e: Declaration)
    requires Catalogued(items, publications) && Stocked(items, atoms, owners)
    requires c in items && c.publication.ref in publications && e.kind == Requires
    ensures (&& v.Admit(e, OwnersOf(owners, e.target))
             && forall p | p in OwnersOf(owners, e.target) && p != c.publication.ref ::
                  p in publications[c.publication.ref].locks)
       <==> forall p | p in items && Admits(p, e.target) :: Accepts(v, e, p) && (p == c || Locks(c, p))
  {
    hide Admits, Catalogued, Stocked, OwnersOf;
    var held := OwnersOf(owners, e.target);
    Listed(items, publications, c);
    forall p | p in items
      ensures Admits(p, e.target) <==> p.publication.ref in held
      ensures p.publication.ref == c.publication.ref <==> p == c
    {
      HeldBy(items, atoms, owners, p, e.target);
      Same(items, publications, p, c);
    }
    forall r | r in held ensures exists p :: p in items && p.publication.ref == r && Admits(p, e.target) {
      var p := Holder(items, atoms, owners, e.target, r);
    }
  }

  lemma HeldBy(items: seq<Item>, atoms: map<string, Atom>, owners: map<string, set<Ref>>, p: Item, id: string)
    requires Stocked(items, atoms, owners) && p in items
    ensures Admits(p, id) <==> p.publication.ref in OwnersOf(owners, id)
  {
    hide Admits;
    assert Admits(p, id) <==> Owns(owners, p, id);
  }

  lemma Holder(items: seq<Item>, atoms: map<string, Atom>, owners: map<string, set<Ref>>, id: string, r: Ref)
    returns (p: Item)
    requires Stocked(items, atoms, owners) && r in OwnersOf(owners, id)
    ensures p in items && p.publication.ref == r && Admits(p, id)
  {
    hide Admits;
    p :| p in items && p.publication.ref == r;
    assert Owns(owners, p, id);
  }

  lemma AgreedMeans(items: seq<Item>)
    ensures AtomsAgree(Admissions(items)) && !PrivateNames(items) <==> Agreed(items)
  {
    hide AtomsAgree, Admissions, PrivateNames;
    AtomsAgreeMeans(items);
    PrivateMeans(items);
  }

  lemma AtomsAgreeMeans(items: seq<Item>)
    ensures AtomsAgree(Admissions(items)) <==>
              forall i, j, a, b | && i in items && a in i.publication.atoms && a.id in i.admitted
                                  && j in items && b in j.publication.atoms && b.id in j.admitted && a.id == b.id ::
                a == b
  {
    var admissions := Admissions(items);
    if AtomsAgree(admissions) {
      forall i, j, a, b | && i in items && a in i.publication.atoms && a.id in i.admitted
                          && j in items && b in j.publication.atoms && b.id in j.admitted && a.id == b.id
        ensures a == b
      {
        assert (a, i.publication.ref) in admissions && (b, j.publication.ref) in admissions;
      }
    }
  }

  lemma PrivateMeans(items: seq<Item>)
    ensures PrivateNames(items) <==>
              || (exists i, a :: i in items && a in i.publication.atoms && Reserved(a.id))
              || (exists i :: i in items && Reserved(i.publication.ref.capsuleId))
  {
    forall i, a | i in items && a in i.publication.atoms ensures a.id in KnownAtoms(items) {
    }
    forall i | i in items ensures i.publication.ref in Refs(items) {
    }
  }

  lemma SettlesMeans(items: seq<Item>, atoms: map<string, Atom>, owners: map<string, set<Ref>>,
                     publications: map<Ref, Publication>, interfaces: seq<string>, required: set<string>, v: Versions)
    requires Catalogued(items, publications) && Stocked(items, atoms, owners)
    requires forall id | id in atoms :: atoms[id].id == id
    ensures Settles(atoms, owners, publications, items, interfaces, required, v)
       <==> Fine(items, interfaces, required, v)
  {
    hide RootResolves, ManifestResolves, AtomResolves, Resolves, WholeRefs, KnownAtoms, InterfaceFine, ManifestFine,
      AtomFine, DeclarationFine, Catalogued, Stocked, Admits;
    forall q ensures RootResolves(v, publications, WholeRefs(items), q) <==> InterfaceFine(v, items, q) {
      InterfaceMeans(items, publications, v, q);
    }
    ManifestsMean(items, publications, v);
    AtomsMean(items, atoms, owners, publications);
    DeclarationsMean(items, atoms, owners, publications, v);
    RequiredMeans(items, atoms, owners, publications, required);
  }

  lemma ManifestsMean(items: seq<Item>, publications: map<Ref, Publication>, v: Versions)
    requires Catalogued(items, publications)
    ensures (forall c | c in publications :: ManifestResolves(v, publications, WholeRefs(items), c))
       <==> (forall c | c in items :: ManifestFine(v, items, c))
  {
    hide ManifestResolves, ManifestFine, WholeRefs;
    forall c | c in items
      ensures c.publication.ref in publications
      ensures ManifestResolves(v, publications, WholeRefs(items), c.publication.ref) <==> ManifestFine(v, items, c)
    {
      ManifestMeans(items, publications, v, c);
    }
  }

  lemma AtomsMean(items: seq<Item>, atoms: map<string, Atom>, owners: map<string, set<Ref>>,
                  publications: map<Ref, Publication>)
    requires Catalogued(items, publications) && Stocked(items, atoms, owners)
    requires forall id | id in atoms :: atoms[id].id == id
    ensures (forall id | id in atoms :: AtomResolves(publications, owners, atoms[id]))
       <==> forall c, a | c in items && a in c.publication.atoms && a.id in c.admitted :: AtomFine(items, c, a)
  {
    hide AtomResolves, AtomFine, Catalogued;
    forall id | id in atoms
      ensures AtomResolves(publications, owners, atoms[id]) <==>
                forall c | c in items && Admits(c, id) :: AtomFine(items, c, atoms[id])
    {
      AtomMeans(items, atoms, owners, publications, id);
    }
  }

  lemma DeclarationsMean(items: seq<Item>, atoms: map<string, Atom>, owners: map<string, set<Ref>>,
                         publications: map<Ref, Publication>, v: Versions)
    requires Catalogued(items, publications) && Stocked(items, atoms, owners)
    ensures (forall p | p in AllDeclared(publications) ::
               Resolves(v, publications, owners, WholeRefs(items), KnownAtoms(items), p.0, p.1))
       <==> forall c, e | c in items && e in c.publication.declared :: DeclarationFine(v, items, c, e)
  {
    hide Resolves, DeclarationFine, WholeRefs, KnownAtoms, Stocked;
    forall c, e | c in items && e in c.publication.declared
      ensures (c.publication.ref, e) in AllDeclared(publications)
      ensures Resolves(v, publications, owners, WholeRefs(items), KnownAtoms(items), c.publication.ref, e) <==>
                DeclarationFine(v, items, c, e)
    {
      DeclarationMeans(items, atoms, owners, publications, v, c, e);
    }
  }

  lemma RequiredMeans(items: seq<Item>, atoms: map<string, Atom>, owners: map<string, set<Ref>>,
                      publications: map<Ref, Publication>, required: set<string>)
    requires Catalogued(items, publications) && Stocked(items, atoms, owners)
    ensures required <= atoms.Keys <==> forall id | id in required :: exists i :: i in items && Admits(i, id)
  {
    hide Admits, Catalogued;
    forall id | id in atoms ensures exists i :: i in items && Admits(i, id) {
      var _ := SomeOwner(items, atoms, owners, publications, id);
    }
    forall i, id | i in items && Admits(i, id) ensures id in atoms {
      assert Owns(owners, i, id);
    }
  }

  // -------------------------------------------------------------------- the whole admission

  lemma HasCatalogue(items: seq<Item>) returns (publications: map<Ref, Publication>, refs: seq<Ref>)
    requires DistinctRefs(items)
    ensures InCatalogue(publications, refs, WholeRefs(items), KnownAtoms(items), items)
  {
    hide WholeRefs, KnownAtoms, DistinctRefs, Refs, PublicationOf;
    refs := seq(|items|, i requires 0 <= i < |items| => items[i].publication.ref);
    RefsListed(items, refs);
    publications := map r | r in Refs(items) :: PublicationOf(items, r);
    forall item | item in items
      ensures item.publication.ref in Refs(items)
      ensures PublicationOf(items, item.publication.ref) == item.publication
    {
      PublicationIs(items, item);
    }
    assert forall r | r in publications :: publications[r].ref == r;
  }

  lemma RefsListed(items: seq<Item>, refs: seq<Ref>)
    requires DistinctRefs(items) && |refs| == |items|
    requires forall i | 0 <= i < |items| :: refs[i] == items[i].publication.ref
    ensures forall r :: r in refs <==> r in Refs(items)
    ensures forall i, j | 0 <= i < j < |refs| :: refs[i] != refs[j]
  {
    forall r | r in Refs(items) ensures r in refs {
      var item :| item in items && item.publication.ref == r;
      var i :| 0 <= i < |items| && items[i] == item;
      assert refs[i] == r;
    }
    forall r | r in refs ensures r in Refs(items) {
      var i :| 0 <= i < |refs| && refs[i] == r;
      assert items[i] in items;
    }
  }

  lemma PublicationIs(items: seq<Item>, item: Item)
    requires DistinctRefs(items) && item in items
    ensures item.publication.ref in Refs(items) && PublicationOf(items, item.publication.ref) == item.publication
  {
    SameItem(items, item.publication.ref);
  }

  ghost function PublicationOf(items: seq<Item>, r: Ref): (p: Publication)
    requires r in Refs(items)
    ensures p.ref == r && exists item :: item in items && item.publication == p
  {
    var item :| item in items && item.publication.ref == r;
    item.publication
  }

  function AdmittedIds(admissions: set<(Atom, Ref)>): set<string> {
    set p | p in admissions :: p.0.id
  }

  function OwnersIn(admissions: set<(Atom, Ref)>, id: string): set<Ref> {
    set p | p in admissions && p.0.id == id :: p.1
  }

  lemma HasStock(admissions: set<(Atom, Ref)>) returns (atoms: map<string, Atom>, owners: map<string, set<Ref>>)
    requires AtomsAgree(admissions)
    ensures Owned(atoms, owners, admissions)
  {
    hide AtomsAgree, OwnersIn;
    atoms := map id | id in AdmittedIds(admissions) :: AtomOf(admissions, id);
    owners := map id | id in AdmittedIds(admissions) :: OwnersIn(admissions, id);
    forall p | p in admissions ensures AtomOf(admissions, p.0.id) == p.0 && p.1 in OwnersIn(admissions, p.0.id) {
      OneAtom(admissions, p);
    }
    forall id, r | id in owners && r in owners[id] ensures (atoms[id], r) in admissions {
      OwnerAdmitted(admissions, id, r);
    }
  }

  lemma OneAtom(admissions: set<(Atom, Ref)>, p: (Atom, Ref))
    requires AtomsAgree(admissions) && p in admissions
    ensures AtomOf(admissions, p.0.id) == p.0 && p.1 in OwnersIn(admissions, p.0.id)
  {
    var q :| q in admissions && q.0.id == p.0.id && q.0 == AtomOf(admissions, p.0.id);
    assert q.0 == p.0;
  }

  lemma OwnerAdmitted(admissions: set<(Atom, Ref)>, id: string, r: Ref)
    requires AtomsAgree(admissions) && id in AdmittedIds(admissions) && r in OwnersIn(admissions, id)
    ensures (AtomOf(admissions, id), r) in admissions
  {
    var p :| p in admissions && p.0.id == id && p.1 == r;
    OneAtom(admissions, p);
    assert p == (p.0, p.1);
  }

  ghost function AtomOf(admissions: set<(Atom, Ref)>, id: string): (a: Atom)
    requires exists p :: p in admissions && p.0.id == id
    ensures exists p :: p in admissions && p.0.id == id && p.0 == a
  {
    var p :| p in admissions && p.0.id == id;
    p.0
  }

  /**
   An admission can be assembled for a task exactly when its capsules agree on their atoms, every
   required interface, manifest requirement and binding declaration has its one answer, every
   capsule that brings a required atom is locked, and names and constraints can be read.
   */
  lemma ResolvableMeans(items: seq<Item>, interfaces: seq<string>, required: set<string>, v: Versions)
    requires DistinctRefs(items)
    ensures Resolvable(items, interfaces, required, v) <==>
              Agreed(items) && Fine(items, interfaces, required, v)
  {
    hide Owned, InCatalogue, Settles, AtomsAgree, PrivateNames, Admissions, WholeRefs, KnownAtoms, Agreed, Fine,
      Catalogued, Stocked;
    AgreedMeans(items);
    forall atoms, owners, publications, refs |
      && Owned(atoms, owners, Admissions(items))
      && InCatalogue(publications, refs, WholeRefs(items), KnownAtoms(items), items)
      ensures Settles(atoms, owners, publications, items, interfaces, required, v)
         <==> Fine(items, interfaces, required, v)
    {
      IsCatalogued(items, publications, refs);
      IsStocked(items, atoms, owners, publications);
      OwnIds(items, atoms, owners);
      SettlesMeans(items, atoms, owners, publications, interfaces, required, v);
    }
    if Agreed(items) {
      var publications, refs := HasCatalogue(items);
      var atoms, owners := HasStock(Admissions(items));
    }
  }

  lemma OwnIds(items: seq<Item>, atoms: map<string, Atom>, owners: map<string, set<Ref>>)
    requires Owned(atoms, owners, Admissions(items))
    ensures forall id | id in atoms :: atoms[id].id == id
  {
  }

  // ------------------------------------------------------------------ where requirements come from

  /** Between an atom and one of its owners. */
  predicate OwnershipLink(g: ResolvedGraph, x: string, y: string) {
    exists id, r :: && id in g.owners && r in g.owners[id]
                    && ((x == id && y == Presence(r)) || (x == Unit(r) && y == id))
  }

  /** From a capsule to a complete, locked and accepted provider of one of its requirements. */
  ghost predicate ProviderLink(g: ResolvedGraph, v: Versions, x: string, y: string) {
    exists c, q, p :: c in g.publications && q in g.publications[c].requirements && Serves(g, v, c, q, p)
                      && x == Presence(c) && y == Unit(p)
  }

  /** From an atom to one it requires. */
  predicate AtomLink(g: ResolvedGraph, x: string, y: string) {
    exists id :: id in g.atoms && x == g.atoms[id].id && y in g.atoms[id].requiresAtoms
  }

  /** From the source of a binding declaration to the version or the atom that answers it. */
  ghost predicate DeclaredLink(g: ResolvedGraph, v: Versions, x: string, y: string) {
    exists c, e :: c in g.publications && e in g.publications[c].declared && Declares(g, v, c, e, x, y)
  }

  ghost predicate Declares(g: ResolvedGraph, v: Versions, c: Ref, e: Declaration, x: string, y: string) {
    && e.kind == Requires && e.mandatory
    && (if e.source == c.capsuleId then x == Presence(c)
        else x == e.source && e.source in g.owners && c in g.owners[e.source])
    && if forall p | p in g.publications :: p.capsuleId != e.target then y == e.target
       else exists p :: Answers(g, v, c, e, p) && y == Unit(p)
  }

  /**
   Every strict requirement of an assembled graph is one between an atom and its owner, or comes
   from a manifest, an atom or a binding declaration.
   */
  lemma RequirementsAreDeclared(g: ResolvedGraph, v: Versions, complete: set<Ref>, refs: seq<Ref>, x: string, y: string)
    requires ExactEdges(g, v, complete, refs)
    requires forall p | p in g.publications :: p in complete <==> Complete(g, p)
    requires Edge(x, y, Requires, true) in g.edges
    ensures OwnershipLink(g, x, y) || ProviderLink(g, v, x, y) || AtomLink(g, x, y) || DeclaredLink(g, v, x, y)
  {
    hide BaseEdges, EdgesOf, OwnershipLink, ProviderLink, AtomLink, DeclaredLink, Complete;
    var k := EdgeKey(x, y, Requires);
    if k in BaseEdges(g, v, complete, refs) {
      BaseRequirement(g, v, complete, refs, k);
    } else {
      assert k in EdgesOf(v, g.publications, g.owners, complete, Firm(AllDeclared(g.publications)));
      FirmRequirement(g, v, complete, k);
    }
  }

  lemma BaseRequirement(g: ResolvedGraph, v: Versions, complete: set<Ref>, refs: seq<Ref>, k: EdgeKey)
    requires forall r :: r in refs <==> r in g.publications
    requires forall p | p in g.publications :: p in complete <==> Complete(g, p)
    requires k in BaseEdges(g, v, complete, refs) && k.kind == Requires
    ensures OwnershipLink(g, k.source, k.target) || ProviderLink(g, v, k.source, k.target)
            || AtomLink(g, k.source, k.target)
  {
    hide Presence, Unit, ManifestEdges, ProviderLink, Complete;
    if k in ManifestEdges(v, g.publications, complete, refs) {
      ManifestRequirement(g, v, complete, refs, k);
    } else if k in AtomKeys(g.atoms) {
      var id :| id in g.atoms && k in AtomEdges(g.atoms[id]);
      assert AtomLink(g, k.source, k.target);
    } else {
      assert k in Ownership(g.owners);
      assert OwnershipLink(g, k.source, k.target);
    }
  }

  lemma {:induction false} ManifestRequirement(g: ResolvedGraph, v: Versions, complete: set<Ref>, rs: seq<Ref>,
                                               k: EdgeKey)
    requires forall r | r in rs :: r in g.publications
    requires forall p | p in g.publications :: p in complete <==> Complete(g, p)
    requires k in ManifestEdges(v, g.publications, complete, rs) && k.kind == Requires
    ensures ProviderLink(g, v, k.source, k.target)
    decreases |rs|
  {
    hide Presence, Unit, Complete, Versions.Matches, ProviderLink;
    var c := rs[|rs| - 1];
    if k in ManifestEdges(v, g.publications, complete, rs[..|rs| - 1]) {
      ManifestRequirement(g, v, complete, rs[..|rs| - 1], k);
    } else {
      ProviderFound(g, v, complete, c, k);
    }
  }

  lemma ProviderFound(g: ResolvedGraph, v: Versions, complete: set<Ref>, c: Ref, k: EdgeKey)
    requires c in g.publications && forall p | p in g.publications :: p in complete <==> Complete(g, p)
    requires k in RequirementEdges(v, g.publications, complete, c, g.publications[c].requirements)
    ensures ProviderLink(g, v, k.source, k.target)
  {
    hide Presence, Unit, Complete, Versions.Matches;
    var q, p :| q in g.publications[c].requirements && p in Candidates(v, g.publications, complete, c, q)
                && k == EdgeKey(Presence(c), Unit(p), Requires);
    assert Serves(g, v, c, q, p);
  }

  lemma FirmRequirement(g: ResolvedGraph, v: Versions, complete: set<Ref>, k: EdgeKey)
    requires forall p | p in g.publications :: p in complete <==> Complete(g, p)
    requires k in EdgesOf(v, g.publications, g.owners, complete, Firm(AllDeclared(g.publications)))
    requires k.kind == Requires
    ensures DeclaredLink(g, v, k.source, k.target)
  {
    hide DeclaredEdges, Complete, Declares;
    var made :| made in Firm(AllDeclared(g.publications))
                && k in DeclaredEdges(v, g.publications, g.owners, complete, made.0, made.1);
    DeclaredRequirement(g, v, complete, made.0, made.1, k);
  }

  lemma DeclaredRequirement(g: ResolvedGraph, v: Versions, complete: set<Ref>, c: Ref, e: Declaration, k: EdgeKey)
    requires c in g.publications && e.mandatory && k.kind == Requires
    requires forall p | p in g.publications :: p in complete <==> Complete(g, p)
    requires k in DeclaredEdges(v, g.publications, g.owners, complete, c, e)
    ensures Declares(g, v, c, e, k.source, k.target)
  {
    hide Presence, Unit, Complete, Versions.Admit;
    assert e.kind == Requires;
    if p :| p in g.publications && p.capsuleId == e.target {
      assert p in Named(g.publications, e.target);
      var answer :| answer in Answering(v, g.publications, complete, c, e)
                    && k == EdgeKey(SourceNode(c, e), Unit(answer), e.kind);
      assert Answers(g, v, c, e, answer);
    }
  }
}
