/**
 The manifest a session leaves behind, and the independent check that re-derives from the
 graph whether a manifest can belong to a valid view.
 */
module Membership {
  import opened Common
  import opened CapsuleGraph
  import opened Selection

  datatype Decision = Decision(capsule: Ref, atom: string, selected: bool, reason: Reason)

  /** The part of a view manifest that depends on the selection; its lists are ordered sets. */
  datatype Manifest =
    Manifest(capsules: set<Ref>, decisions: set<Decision>, closure: set<(string, string)>, conflicts: set<set<string>>)

  function ExpectedKeys(g: ResolvedGraph): set<(Ref, string)> {
    set id, r | id in g.atoms && id in g.owners && r in g.owners[id] :: (r, id)
  }

  predicate Contradictory(refs: set<Ref>) {
    exists l, r :: l in refs && r in refs && l != r && l.capsuleId == r.capsuleId
  }

  /** Projects a session: contradictory versions have no valid identity, so they are not listed at all. */
  function BuildManifest(job: Job, st: State): Manifest {
    var participating := job.graph.Participating(st.selected);
    var links := job.graph.ClosureLinks(st.selected);
    Manifest(if Contradictory(participating) then {} else participating,
             set k | k in ExpectedKeys(job.graph) ::
               Decision(k.0, k.1, k.1 in st.selected,
                        if k.1 in st.reasons then st.reasons[k.1] else CompilationBlocked),
             if links.Ok? then links.value else {},
             st.conflicts)
  }

  function SelectedIn(m: Manifest): set<string> {
    set d | d in m.decisions && d.selected :: d.atom
  }

  /** The manifest records exactly this selection of the graph. */
  ghost predicate Records(g: ResolvedGraph, m: Manifest, selected: set<string>) {
    && (forall d | d in m.decisions :: (d.capsule, d.atom) in ExpectedKeys(g) && (d.selected <==> d.atom in selected))
    && (forall k | k in ExpectedKeys(g) :: exists d :: d in m.decisions && d.capsule == k.0 && d.atom == k.1)
    && m.capsules == g.Participating(selected)
    && g.ClosureLinks(selected) == Ok(m.closure)
    && m.conflicts == {}
  }

  /** A selection the compiler could stand behind: closed, conflict-free, and with everything mandatory. */
  ghost predicate Valid(job: Job, selected: set<string>) {
    && ClosedSelection(job.graph, selected)
    && job.graph.ConflictsFor(selected) == Ok({})
    && job.graph.CloseAtoms(job.Mandatory()).Ok?
    && job.graph.CloseAtoms(job.Mandatory()).value <= selected
  }

  /**
   Re-derives the selection from the decisions and re-checks it against the graph; compiler flags
   are not consulted.
   */
  method CheckMembership(job: Job, m: Manifest) returns (r: Result<set<string>, CompileError>)
    requires forall id | id in job.graph.atoms :: id in job.graph.owners && job.graph.owners[id] != {}
    ensures r.Ok? <==> exists selected ::
              selected <= job.graph.atoms.Keys && Valid(job, selected) && Records(job.graph, m, selected)
    ensures r.Ok? ==> r.value <= job.graph.atoms.Keys && Valid(job, r.value) && Records(job.graph, m, r.value)
  {
    hide ResolvedGraph.CloseAtoms, ResolvedGraph.ConflictsFor, ResolvedGraph.ClosureLinks, Job.P0, Job.MatchedP1,
      ExpectedKeys,
         ResolvedGraph.ClosedNodes;
    OnlyItsSelection(job, m);
    if (set d | d in m.decisions :: (d.capsule, d.atom)) != ExpectedKeys(job.graph) {
      return Err(MembershipInvalid);
    }
    var selected := SelectedIn(m);
    var mandatory := job.P0();
    mandatory := mandatory + job.MatchedP1();
    mandatory := mandatory + job.graph.roots;
    mandatory := mandatory + job.required;
    assert mandatory == job.Mandatory();
    var closed := job.graph.CloseAtoms(mandatory);
    if closed.Err? {
      return Err(closed.error);
    }
    if !(closed.value <= selected) {
      return Err(MandatoryMembership);
    }
    var again := job.graph.CloseAtoms(selected);
    if again.Err? {
      return Err(again.error);
    }
    if again.value != selected {
      return Err(MandatoryMembership);
    }
    AtomsOfClosure(job.graph, selected);
    if exists d :: d in m.decisions && d.selected != (d.atom in selected) {
      return Err(MembershipInvalid);
    }
    ProjectionLosesNothing(job.graph, selected);
    if job.graph.ConflictsFor(selected).value != {} || m.conflicts != {} {
      return Err(Conflict);
    }
    if job.graph.Participating(selected) != m.capsules {
      return Err(MembershipInvalid);
    }
    LinksDefined(job.graph, selected);
    if job.graph.ClosureLinks(selected).value != m.closure {
      return Err(ClosureInvalid);
    }
    return Ok(selected);
  }

  lemma LinksDefined(g: ResolvedGraph, selected: set<string>)
    ensures g.ClosureLinks(selected).Ok? <==> g.CloseAtoms(selected).Ok?
  {
  }

  /** The decisions leave no choice: a manifest can record only the atoms it marks selected. */
  lemma OnlyItsSelection(job: Job, m: Manifest)
    requires forall id | id in job.graph.atoms :: id in job.graph.owners && job.graph.owners[id] != {}
    ensures forall selected | selected <= job.graph.atoms.Keys && Records(job.graph, m, selected) ::
              && selected == SelectedIn(m)
              && (set d | d in m.decisions :: (d.capsule, d.atom)) == ExpectedKeys(job.graph)
  {
    hide ResolvedGraph.ClosureLinks;
    forall selected | selected <= job.graph.atoms.Keys && Records(job.graph, m, selected)
      ensures selected == SelectedIn(m)
      ensures (set d | d in m.decisions :: (d.capsule, d.atom)) == ExpectedKeys(job.graph)
    {
      forall id | id in selected ensures id in SelectedIn(m) {
        var r :| r in job.graph.owners[id];
        assert (r, id) in ExpectedKeys(job.graph);
      }
      var keys := set d | d in m.decisions :: (d.capsule, d.atom);
      forall k | k in ExpectedKeys(job.graph) ensures k in keys {
        var d :| d in m.decisions && d.capsule == k.0 && d.atom == k.1;
      }
    }
  }

  /** The empty-identity fallback never fires for a valid selection of an assembled graph. */
  lemma FallbackNeverFires(job: Job, v: Versions, selected: set<string>)
    requires Assembled(job.graph, v) && Valid(job, selected)
    ensures !Contradictory(job.graph.Participating(selected))
  {
    hide ResolvedGraph.CloseAtoms, ResolvedGraph.ConflictsFor, Assembled, ResolvedGraph.Participating, Job.Mandatory;
    forall l, r | l in job.graph.Participating(selected) && r in job.graph.Participating(selected)
      && l.capsuleId == r.capsuleId
      ensures l == r
    {
      VersionsExclusive(job.graph, v, selected, l, r);
    }
  }

  /** The manifest built from a completed selection records that selection, so the independent check accepts it. */
  lemma SelectionPassesCheck(job: Job, v: Versions, st: State)
    requires Assembled(job.graph, v) && Selected(job, st)
    ensures st.selected <= job.graph.atoms.Keys
    ensures Valid(job, st.selected) && Records(job.graph, BuildManifest(job, st), st.selected)
  {
    hide ResolvedGraph.CloseAtoms, ResolvedGraph.ConflictsFor, ResolvedGraph.ClosureLinks, Assembled, Job.P0,
      Job.MatchedP1, Job.Matched,
         ResolvedGraph.Participating, ResolvedGraph.ClosedNodes, Contradictory;
    AtomsOfClosure(job.graph, st.selected);
    CloseAtomsMonotone(job.graph, job.Mandatory(), st.selected);
    FallbackNeverFires(job, v, st.selected);
    LinksDefined(job.graph, st.selected);
    DecisionsRecord(job, st);
  }

  lemma DecisionsRecord(job: Job, st: State)
    ensures var m := BuildManifest(job, st);
            && (forall d | d in m.decisions :: (d.capsule, d.atom) in ExpectedKeys(job.graph) && (d.selected
                  <==> d.atom in st.selected))
            && (forall k | k in ExpectedKeys(job.graph) :: exists d ::
                d in m.decisions && d.capsule == k.0 && d.atom == k.1)
  {
    hide ExpectedKeys, ResolvedGraph.ClosureLinks, ResolvedGraph.Participating;
    var m := BuildManifest(job, st);
    forall k | k in ExpectedKeys(job.graph) ensures exists d :: d in m.decisions && d.capsule == k.0 && d.atom == k.1 {
      var reason := if k.1 in st.reasons then st.reasons[k.1] else CompilationBlocked;
      var d := Decision(k.0, k.1, k.1 in st.selected, reason);
      assert d in m.decisions;
    }
  }

  /**
   Whatever produced a manifest, once the check accepts it every listed capsule has each of its
   requirements met by one locked, complete provider that is listed too and whose whole payload
   is selected, and no two listed capsules exclude each other or are versions of one capsule.
   */
  lemma AcceptedManifestIsCoherent(job: Job, v: Versions, m: Manifest, selected: set<string>, c: Ref, other: Ref)
    requires Assembled(job.graph, v) && Valid(job, selected) && Records(job.graph, m, selected)
    requires c in m.capsules && other in m.capsules
    ensures c in job.graph.publications && other in job.graph.publications
    ensures c.capsuleId == other.capsuleId ==> c == other
    ensures forall d | d in job.graph.publications[c].conflicts :: !v.Matches(job.graph.publications[other], d)
    ensures forall q | q in job.graph.publications[c].requirements ::
              exists p :: Serves(job.graph, v, c, q, p) && p in m.capsules
                && job.graph.publications[p].Payload() <= selected
  {
    hide ResolvedGraph.CloseAtoms, ResolvedGraph.ConflictsFor, ResolvedGraph.ClosureLinks, Assembled, Job.Mandatory,
         ResolvedGraph.Participating, Versions.Matches;
    VersionsExclusive(job.graph, v, selected, c, other);
    forall q | q in job.graph.publications[c].requirements
      ensures exists p ::
                Serves(job.graph, v, c, q, p) && p in m.capsules && job.graph.publications[p].Payload() <= selected
    {
      RequirementsMet(job.graph, v, selected, c, q);
      var p :| Serves(job.graph, v, c, q, p) && job.graph.publications[p].Payload() <= selected
          && p in job.graph.Participating(selected);
    }
  }

  /** The same holds of any accepted manifest: the provider of each required interface is listed. */
  lemma AcceptedManifestServes(job: Job, m: Manifest, selected: set<string>, interfaces: seq<string>, q: string)
    requires Valid(job, selected) && Records(job.graph, m, selected) && RootsServe(job.graph, interfaces)
             && q in interfaces
    ensures exists p :: && Offers(job.graph, q, p)
                        && (forall p' | Offers(job.graph, q, p') :: p' == p)
                        && job.graph.publications[p].Payload() <= selected
                        && p in m.capsules
  {
    hide RootsServe, Closure.Close;
    assert job.graph.roots <= job.graph.CloseAtoms(job.Mandatory()).value by {
      assert job.graph.roots <= job.Mandatory();
      AtomsOfClosure(job.graph, job.Mandatory());
    }
    InterfaceServed(job.graph, interfaces, selected, q);
  }
}
