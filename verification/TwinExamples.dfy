/**
 Twin pairs that go well, on concrete profiles: one with a pair check is accepted, and one
 without, which a published contract with no differential clause leads to, never is.
 */
module TwinExamples {
  import opened Common
  import opened TwinEvaluation
  import opened TwinLog
  import opened TwinRunner

  /** A runtime whose clock counts stages, that numbers its containers and fails every probe's command. */
  function Numbering(say: (Invocation, Subject) -> string, tree: string): Runtime {
    (k: nat, what: Invocation, s: Subject) =>
      Ran(Process(s, seq(k, _ => 'x'), k, k, Some(if what.Probing? then 1 else 0), true, false, false, say(what, s),
                  ""),
          Some((tree, k)), [], false)
  }

  /** The outputs fit and say of every check what its profile expects. */
  ghost predicate Expected(ctx: Context, say: (Invocation, Subject) -> string) {
    && (forall what, s :: |say(what, s)| <= ctx.limits.stdout)
    && (forall check, s: Subject ::
          ctx.observe(say(Checking(check), s), check.id) == Some(check.Expected(s.role)))
  }

  /** Whatever stages such a runtime is given, with outputs as expected and a sound tree in scope, all go well. */
  lemma NumberingIsHealthy(ctx: Context, say: (Invocation, Subject) -> string, tree: string, log: Log, lo: nat)
    requires Expected(ctx, say) && ctx.sound(tree) && ctx.inScope(ctx.initial, tree)
    requires lo <= |log| && Recorded(Numbering(say, tree), log, lo)
    ensures Healthy(ctx, log, lo, |log|)
  {
    forall i | lo <= i < |log|
      ensures StageOk(ctx, log[i])
      ensures ProcessAt(log, i).started == EndAt(log, i) == |ProcessAt(log, i).container| == i
    {
      assert log[i].outcome == Numbering(say, tree)(i, log[i].what, log[i].subject);
      assert |say(log[i].what, log[i].subject)| <= ctx.limits.stdout;
    }
  }

  const GUARD := Check("pre", Guard, Pre, [Probe("seen", Current)], true, true)
  const TARGET := Check("target", Target, Post, [Probe("changed", Current)], false, true)
  const KEPT := Check("kept", Invariant, Post, [], true, true)
  const SPILL := Check("spill", Spillover, Post, [], false, false)
  const COMPARED := Check("compared", Guard, Paired, [Probe("both", NewFinal)], true, true)

  function Profile(paired: bool): seq<Check> {
    [GUARD, TARGET, KEPT, SPILL] + if paired then [COMPARED] else []
  }

  function Verdict(output: string, check: string): Option<bool> {
    if output == "yes" then Some(true) else if output == "no" then Some(false) else None
  }

  function Truthful(what: Invocation, s: Subject): string {
    if what.Checking? && what.check.Expected(s.role) then "yes" else "no"
  }

  function Setup(paired: bool): Context {
    Context(Profile(paired), "initial", 0, 1, Limits(0, 3, 0), (output, check) => Verdict(output, check),
            tree => true, (before, after) => true)
  }

  lemma ProfileMembers(paired: bool)
    ensures var checks := Profile(paired);
            && |checks| == (if paired then 5 else 4)
            && checks[0] == GUARD && checks[1] == TARGET && checks[2] == KEPT && checks[3] == SPILL
            && (paired ==> checks[4] == COMPARED)
    ensures forall c :: c in Profile(paired) <==> c in {GUARD, TARGET, KEPT, SPILL} || (paired && c == COMPARED)
  {
  }

  lemma ProfileIdsDiffer(paired: bool)
    ensures NoDups(Ids(Profile(paired)))
  {
    hide Profile;
    ProfileMembers(paired);
    var ids := Ids(Profile(paired));
    assert |ids[0]| == 3 && |ids[1]| == 6 && |ids[2]| == 4 && |ids[3]| == 5 && (paired ==> |ids[4]| == 8);
  }

  lemma ProfileFits(paired: bool)
    ensures Fitting(Profile(paired)) && RolesPresent(Profile(paired))
  {
    hide Profile;
    ProfileMembers(paired);
    assert TARGET in Profile(paired) && KEPT in Profile(paired) && SPILL in Profile(paired);
  }

  lemma SetupIsBound(paired: bool)
    ensures ContextOk(Setup(paired)) && (HasPairCheck(Setup(paired)) <==> paired)
    ensures Setup(paired).(repetition := 0) == Setup(paired)
  {
    hide NoDups, Ids, Fitting, RolesPresent, Profile;
    ProfileMembers(paired);
    ProfileIdsDiffer(paired);
    ProfileFits(paired);
    assert GUARD in Profile(paired);
  }

  /**
   A pair on the profile runs through, probes with exit code 1 included, and leaves a complete
   record; the evaluator accepts it if there is a pair check, and not otherwise.
   */
  method RunProfile(paired: bool) returns (r: PairRecord)
    ensures ContextOk(Setup(paired))
    ensures r.old'.Complete() && r.new'.Complete()
    ensures Accepted(Setup(paired), r.old'.Completed(), r.new'.Completed(), r.paired, "record", "record") <==> paired
  {
    hide Accepted, ContextOk, HasPairCheck, Setup, Healthy;
    var runner := new PairRunner(Setup(paired), Numbering(Truthful, "final"));
    SetupIsBound(paired);
    r := runner.Pair(0, _ => "record");
    SetupAnswers(paired);
    NumberingIsHealthy(Setup(paired), Truthful, "final", runner.stages, 0);
  }

  lemma SetupAnswers(paired: bool)
    ensures Expected(Setup(paired), Truthful) && Setup(paired).sound("final")
    ensures Setup(paired).inScope(Setup(paired).initial, "final")
  {
  }
}
