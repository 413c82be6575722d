/**
 What a completed selection says about the edges of the graph, the classes of the atoms, the
 ranker's answers and the rendered totals themselves.
 */
module SelectionMeaning {
  import opened Common
  import opened CapsuleGraph
  import opened Selection
  import opened GraphMeaning

  /** Everything the atoms strictly require exists, and the selection is the atoms among it. */
  ghost predicate Gives(g: ResolvedGraph, atoms: set<string>, selected: set<string>) {
    && atoms <= g.atoms.Keys
    && (forall x | Reached(g, atoms, x) :: IsNode(g, x))
    && (forall id :: id in selected <==> id in g.atoms && Reached(g, atoms, id))
  }

  /** No edge opposes two nodes the atoms reach. */
  ghost predicate Peaceful(g: ResolvedGraph, atoms: set<string>) {
    forall x, y | Opposed(g, x, y) && Reached(g, atoms, x) :: !Reached(g, atoms, y)
  }

  lemma ClosureGives(g: ResolvedGraph, atoms: set<string>, closed: set<string>)
    ensures g.CloseAtoms(atoms) == Ok(closed) <==> Gives(g, atoms, closed)
    ensures g.CloseAtoms(atoms).Ok? ==> (g.ConflictsFor(atoms) == Ok({}) <==> Peaceful(g, atoms))
  {
    hide Reached, IsNode, Opposed, ResolvedGraph.CloseAtoms, ResolvedGraph.ConflictsFor, ResolvedGraph.ClosureLinks;
    QueriesMean(g, atoms);
    if g.CloseAtoms(atoms).Ok? {
      ConflictsMean(g, atoms, {});
      if Gives(g, atoms, closed) {
        assert closed == g.CloseAtoms(atoms).value;
      }
    }
  }

  /** What a candidate must satisfy to be judged at all, and to be taken. */
  lemma AffordableMeans(job: Job, atoms: set<string>)
    ensures Possible(job, atoms) <==>
              exists closed :: Gives(job.graph, atoms, closed) && Peaceful(job.graph, atoms)
                            && job.render(closed, false).Ok?
    ensures Affordable(job, atoms) <==>
              exists closed :: Gives(job.graph, atoms, closed) && Peaceful(job.graph, atoms)
                            && job.render(closed, false).Ok? && job.render(closed, false).value.total <= job.available
  {
    hide Gives, Peaceful, ResolvedGraph.CloseAtoms, ResolvedGraph.ConflictsFor;
    forall closed ensures job.graph.CloseAtoms(atoms) == Ok(closed) <==> Gives(job.graph, atoms, closed) {
      ClosureGives(job.graph, atoms, closed);
    }
    if job.graph.CloseAtoms(atoms).Ok? {
      ClosureGives(job.graph, atoms, job.graph.CloseAtoms(atoms).value);
    }
  }

  /** The results name no atom twice, leave none out, and give each unchanged with a finite score. */
  ghost predicate RanksAll(g: ResolvedGraph, results: seq<RankedAtom>) {
    && (forall i, j | 0 <= i < j < |results| :: results[i].atom.id != results[j].atom.id)
    && (forall id | id in g.atoms :: exists i :: 0 <= i < |results| && results[i].atom.id == id)
    && (forall i | 0 <= i < |results| ::
          && results[i].atom.id in g.atoms && g.atoms[results[i].atom.id] == results[i].atom
          && results[i].score != NotFinite)
  }

  /** A ranker's answer is accepted exactly then. */
  lemma RankingMeans(g: ResolvedGraph, results: seq<RankedAtom>)
    ensures RankingOk(g, results) <==> RanksAll(g, results)
  {
    hide Ids;
    var items := Stripped(results);
    IdsMean(results);
    if RankingOk(g, results) {
      forall i, j | 0 <= i < j < |results| ensures results[i].atom.id != results[j].atom.id {
        assert items[i].id != items[j].id;
      }
    }
    if RanksAll(g, results) {
      assert Ids(items) == g.atoms.Keys;
    }
  }

  lemma IdsMean(results: seq<RankedAtom>)
    ensures forall id :: id in Ids(Stripped(results)) <==> exists i :: 0 <= i < |results| && results[i].atom.id == id
  {
    var items := Stripped(results);
    forall id | id in Ids(items) ensures exists i :: 0 <= i < |results| && results[i].atom.id == id {
      var item :| item in items && item.id == id;
      var i :| 0 <= i < |items| && items[i] == item;
      assert results[i].atom.id == id;
    }
    forall i | 0 <= i < |results| ensures results[i].atom.id in Ids(items) {
      assert items[i] in items;
    }
  }

  /** The atoms are considered class by class, P0 first and transient ones last. */
  lemma OrderMeans(g: ResolvedGraph, ranked: seq<Ranked>, i: nat, j: nat)
    requires i < j < |ByClass(g, ranked)|
    ensures var order := ByClass(g, ranked);
            && order[i].id in g.atoms && order[j].id in g.atoms
            && match g.atoms[order[j].id].class_ {
              case P0Exact => g.atoms[order[i].id].class_ == P0Exact
              case P1Structured => g.atoms[order[i].id].class_ in {P0Exact, P1Structured}
              case P2Excerpt => g.atoms[order[i].id].class_ in {P0Exact, P1Structured, P2Excerpt}
              case P3Summary => g.atoms[order[i].id].class_ != P4Transient
              case P4Transient => true
            }
  {
    hide ByClass;
    ByClassSorted(g, ranked, i, j);
  }

  /**
   One turn of the pass: an atom that matched and is not selected yet brings in everything it and
   the selection so far reach if that is free of conflict and fits, and is passed over otherwise.
   */
  lemma TurnMeans(job: Job, start: set<string>, order: seq<Ranked>, i: nat)
    requires i < |order|
    ensures var before, after, id :=
              Greedy(job, start, order[..i]), Greedy(job, start, order[..i + 1]), order[i].id;
            if order[i] != Ranked(id, true) || id in before then after == before
            else if exists closed :: && Gives(job.graph, before + {id}, closed) && Peaceful(job.graph, before + {id})
                                     && job.render(closed, false).Ok?
                                     && job.render(closed, false).value.total <= job.available
            then Gives(job.graph, before + {id}, after)
            else after == before
    ensures Greedy(job, start, order[..0]) == start
  {
    hide Greedy, Passable, Gives, Peaceful, ResolvedGraph.CloseAtoms, ResolvedGraph.ConflictsFor;
    GreedyStart(job, start, order);
    GreedyStep(job, start, order, i);
    var before, after, id := Greedy(job, start, order[..i]), Greedy(job, start, order[..i + 1]), order[i].id;
    AffordableMeans(job, before + {id});
    ClosureGives(job.graph, before + {id}, after);
  }

  /**
   When selection goes through: the P0 atoms and all mandatory atoms reach nothing unknown or
   opposed and fit, no matched atom reaches anything unknown, opposed or unrenderable on its turn,
   and the expanded rendering fits.
   */
  lemma SelectableMeans(job: Job, p0: set<string>, asked: set<string>, start: set<string>)
    requires forall id :: id in p0 <==> id in job.graph.atoms && job.graph.atoms[id].class_ == P0Exact
    requires forall id :: id in asked <==> AskedFor(job, id)
    requires Gives(job.graph, asked, start)
    ensures var order := ByClass(job.graph, job.ranked);
            Selectable(job) <==>
              && Peaceful(job.graph, asked)
              && (exists closed :: && Gives(job.graph, p0, closed) && Peaceful(job.graph, p0)
                                   && job.render(closed, false).Ok?
                                   && job.render(closed, false).value.total <= job.available)
              && job.render(start, false).Ok? && job.render(start, false).value.total <= job.available
              && (forall i | 0 <= i < |order| ::
                    var before := Greedy(job, start, order[..i]);
                    order[i].matched && order[i].id !in before ==>
                      exists closed :: && Gives(job.graph, before + {order[i].id}, closed)
                                       && Peaceful(job.graph, before + {order[i].id})
                                       && job.render(closed, false).Ok?)
              && (job.expand ==>
                    && job.render(Greedy(job, start, order), true).Ok?
                    && job.render(Greedy(job, start, order), true).value.total <= job.available)
  {
    hide Greedy, Gives, Peaceful, ByClass, Possible, Affordable, AskedFor, ResolvedGraph.CloseAtoms,
      ResolvedGraph.ConflictsFor, Job.Mandatory;
    forall id ensures id in job.Mandatory() <==> AskedFor(job, id) {
      MandatoryMeans(job, id);
    }
    assert asked == job.Mandatory();
    assert p0 == job.P0();
    ClosureGives(job.graph, asked, start);
    AffordableMeans(job, p0);
    AffordableMeans(job, asked);
    forall closed ensures Gives(job.graph, asked, closed) <==> closed == start {
      ClosureGives(job.graph, asked, closed);
    }
    var order := ByClass(job.graph, job.ranked);
    forall i | 0 <= i < |order|
      ensures var before := Greedy(job, start, order[..i]);
              Possible(job, before + {order[i].id}) <==>
                exists closed :: && Gives(job.graph, before + {order[i].id}, closed)
                                 && Peaceful(job.graph, before + {order[i].id})
                                 && job.render(closed, false).Ok?
    {
      AffordableMeans(job, Greedy(job, start, order[..i]) + {order[i].id});
    }
  }

  /**
   A completed selection: everything asked for, nothing reached left out, nothing opposed, its
   own text and total within the budget, and no atom that the asked-for and the relevant ones do
   not reach.  An atom left out did not match, or did not fit with some part of the selection.
   */
  lemma SelectedMeans(job: Job, st: State, seeds: set<string>)
    requires Selected(job, st)
    requires forall id :: id in seeds <==> AskedFor(job, id) || (id in st.reasons && st.reasons[id] == Relevant)
    ensures forall id | AskedFor(job, id) :: id in st.selected
    ensures Gives(job.graph, st.selected, st.selected) && Peaceful(job.graph, st.selected)
    ensures job.render(st.selected, job.expand) == Ok(Rendering(st.content, st.total)) && st.total <= job.available
    ensures Gives(job.graph, seeds, st.selected)
    ensures forall id | id in st.reasons && st.reasons[id] == Relevant :: Ranked(id, true) in job.ranked
    ensures forall id | id in job.graph.atoms && id !in st.selected ::
              && id in st.reasons
              && st.reasons[id] == if Ranked(id, true) in job.ranked then BudgetExcluded else NotRelevant
    ensures forall id | id in job.graph.atoms && id !in st.selected && Ranked(id, true) in job.ranked ::
              exists base, closed :: && base <= st.selected && Gives(job.graph, base + {id}, closed)
                                     && job.render(closed, false).Ok?
                                     && job.render(closed, false).value.total > job.available
  {
    hide Gives, Peaceful, AskedFor, ResolvedGraph.CloseAtoms, ResolvedGraph.ConflictsFor, Job.Mandatory, Job.Matched;
    forall id ensures id in job.Mandatory() <==> AskedFor(job, id) {
      MandatoryMeans(job, id);
    }
    forall id ensures id in job.Matched() <==> Ranked(id, true) in job.ranked {
      MatchedIs(job, id);
    }
    ClosureGives(job.graph, st.selected, st.selected);
    assert seeds == job.Mandatory() + RelevantIds(st.reasons);
    ClosureGives(job.graph, seeds, st.selected);
    forall id | id in job.graph.atoms && id !in st.selected && Ranked(id, true) in job.ranked
      ensures exists base, closed :: && base <= st.selected && Gives(job.graph, base + {id}, closed)
                                     && job.render(closed, false).Ok?
                                     && job.render(closed, false).value.total > job.available
    {
      RefusedMeans(job, st.selected, id);
    }
  }

  lemma RefusedMeans(job: Job, selected: set<string>, id: string)
    requires Refused(job, selected, id)
    ensures exists base, closed :: && base <= selected && Gives(job.graph, base + {id}, closed)
                                   && job.render(closed, false).Ok?
                                   && job.render(closed, false).value.total > job.available
  {
    hide Gives, ResolvedGraph.CloseAtoms;
    var base :| base <= selected && job.graph.CloseAtoms(base + {id}).Ok?
                && !job.Fits(job.graph.CloseAtoms(base + {id}).value)
                && job.render(job.graph.CloseAtoms(base + {id}).value, false).Ok?;
    ClosureGives(job.graph, base + {id}, job.graph.CloseAtoms(base + {id}).value);
  }

  lemma MatchedIs(job: Job, id: string)
    ensures id in job.Matched() <==> Ranked(id, true) in job.ranked
  {
    if Ranked(id, true) in job.ranked {
      assert Ranked(id, true).matched;
    }
  }

  /**
   The label of each atom the mandatory part reaches: P0 for P0 atoms, a dependency for what only
   those reach, and else the task for what it, the ranker or a required interface asks for.
   */
  lemma LabelsMean(job: Job, reasons: map<string, Reason>, p0: set<string>, asked: set<string>, id: string)
    requires job.graph.CloseAtoms(job.P0()).Ok? && job.graph.CloseAtoms(job.Mandatory()).Ok?
    requires MandatoryLabels(job, reasons)
    requires forall x :: x in p0 <==> x in job.graph.atoms && job.graph.atoms[x].class_ == P0Exact
    requires forall x :: x in asked <==> AskedFor(job, x)
    requires id in reasons && id in job.graph.atoms && Reached(job.graph, asked, id)
    ensures reasons[id] == if id in p0 then P0Required
                           else if Reached(job.graph, p0, id) then DependencyRequired
                           else if id in asked then TaskRequired
                           else DependencyRequired
  {
    hide Reached, AskedFor, ResolvedGraph.CloseAtoms, ResolvedGraph.ConflictsFor, ResolvedGraph.ClosureLinks,
      Job.MatchedP1;
    forall x ensures x in job.Mandatory() <==> AskedFor(job, x) {
      MandatoryMeans(job, x);
    }
    assert asked == job.Mandatory() && p0 == job.P0();
    QueriesMean(job.graph, asked);
    QueriesMean(job.graph, p0);
  }
}
