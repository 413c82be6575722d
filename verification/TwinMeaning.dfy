/**
 What an accepted pair of twin runs, and a pair that was allowed to go on, say about the
 processes and trees themselves.
 */
module TwinMeaning {
  import opened Common
  import opened TwinEvaluation
  import opened TwinLog
  import opened TwinRunner
  import opened TwinAttempt

  // ---------------------------------------------------------------------- single processes

  /** The process ended by itself, in time and within its output limits. */
  predicate InLimits(limits: Limits, p: Process) {
    && p.terminated && !p.timedOut && !p.outputLimited
    && p.started <= p.finished <= p.started + limits.timeout
    && |p.stdout| <= limits.stdout && |p.stderr| <= limits.stderr
  }

  /** A process counts as good exactly when it ran for its subject within the limits and exited as it may. */
  lemma ProcessMeans(limits: Limits, p: Process, expected: Subject, probe: bool)
    ensures ProcessOk(limits, p, expected, probe) <==>
              && p.subject == expected && InLimits(limits, p)
              && (if probe then exists code: nat :: p.exit == Some(code) else p.exit == Some(0))
  {
    if ProcessOk(limits, p, expected, probe) && probe {
      var code: nat := p.exit.value;
      assert p.exit == Some(code);
    }
  }

  /**
   When a stage went well: it ran for its subject, left nothing behind and raised nothing; an
   executor left a sound tree in scope, captured after it ended; a check said what its profile
   expects of the role.
   */
  lemma StageMeans(ctx: Context, r: StageRecord)
    ensures StageOk(ctx, r) <==>
              && r.outcome.Ran? && !r.outcome.retained && r.outcome.blockers == []
              && r.outcome.process.subject == r.subject && InLimits(ctx.limits, r.outcome.process)
              && match r.what {
                case Executing =>
                  && r.outcome.process.exit == Some(0)
                  && exists tree, time :: && r.outcome.captured == Some((tree, time))
                                          && r.outcome.process.finished <= time
                                          && ctx.sound(tree) && ctx.inScope(ctx.initial, tree)
                case Probing(_) => exists code: nat :: r.outcome.process.exit == Some(code)
                case Checking(check) =>
                  && r.outcome.process.exit == Some(0)
                  && ctx.observe(r.outcome.process.stdout, check.id)
                     == Some(match r.subject.role case Old => check.oldExpected
                                                  case New => check.newExpected
                                                  case Both => true)
              }
  {
    hide ProcessOk, InLimits;
    if r.outcome.Ran? {
      ProcessMeans(ctx.limits, r.outcome.process, r.subject, r.what.Probing?);
      if r.outcome.captured.Some? {
        var (tree, time) := r.outcome.captured.value;
        assert r.outcome.captured == Some((tree, time));
      }
    }
  }

  /** The process ran this stage for the role and repetition, on these inputs and over these observations. */
  predicate RanStage(p: Process, role: StageRole, repetition: nat, stage: string, inputs: seq<string>,
                     observed: seq<Process>) {
    && p.subject.role == role && p.subject.repetition == repetition && p.subject.stage == stage
    && p.subject.inputs == inputs && p.subject.probes == observed
  }

  /** Each probe of the check was run, on the tree its binding names. */
  predicate ProbesRan(ctx: Context, check: Check, c: Capture, role: StageRole, trees: map<InputState, string>) {
    && |c.probes| == |check.probes|
    && forall i | 0 <= i < |c.probes| ::
         && InLimits(ctx.limits, c.probes[i])
         && c.probes[i].exit.Some? && c.probes[i].exit.value >= 0
         && (check.probes[i].input in trees ==>
               RanStage(c.probes[i], role, ctx.repetition, check.probes[i].id, [trees[check.probes[i].input]], []))
  }

  /** The check was run to a clean end over the observations of its probes. */
  predicate CheckRan(ctx: Context, check: Check, c: Capture, role: StageRole, inputs: seq<string>,
                     trees: map<InputState, string>) {
    && InLimits(ctx.limits, c.process) && c.process.exit == Some(0)
    && RanStage(c.process, role, ctx.repetition, check.id, inputs, c.probes)
    && ProbesRan(ctx, check, c, role, trees)
  }

  lemma CaptureMeans(ctx: Context, check: Check, c: Capture, role: StageRole, inputs: seq<string>, earliest: nat,
                     trees: map<InputState, string>)
    requires CaptureOk(ctx, check, c, role, inputs, earliest)
    requires forall state | state in trees :: StateDigest(role, inputs, state) == Some(trees[state])
    ensures CheckRan(ctx, check, c, role, inputs, trees)
  {
    hide NoDups, ContainersOf;
    forall i | 0 <= i < |c.probes|
      ensures InLimits(ctx.limits, c.probes[i]) && c.probes[i].exit.Some? && c.probes[i].exit.value >= 0
      ensures check.probes[i].input in trees ==>
                RanStage(c.probes[i], role, ctx.repetition, check.probes[i].id, [trees[check.probes[i].input]], [])
    {
      assert ProbeOk(ctx, check.probes[i], c.probes[i], role, inputs, earliest, c.process.started);
    }
  }

  // -------------------------------------------------------------------------- one valid run

  /** What a check is expected to say of a role. */
  function ExpectedOf(check: Check, role: StageRole): bool {
    if role == Old then check.oldExpected else if role == New then check.newExpected else true
  }

  /** The check of the run was carried out on the right trees and said what is expected of the role. */
  predicate Confirmed(ctx: Context, run: Run, check: Check, c: Capture) {
    && ctx.observe(c.process.stdout, check.id) == Some(ExpectedOf(check, run.role))
    && (if check.phase == Pre
        then CheckRan(ctx, check, c, run.role, [ctx.initial], map[Initial := ctx.initial, Current := ctx.initial])
        else CheckRan(ctx, check, c, run.role, [ctx.initial, run.final],
                      map[Initial := ctx.initial, Current := run.final]))
  }

  /**
   A valid run has a clean executor on the initial tree, sound trees, and exactly one capture for
   each role check, in which that check was carried out and said what is expected.
   */
  lemma RunMeans(ctx: Context, run: Run)
    requires RunValid(ctx, run)
    ensures ctx.repetition < ctx.repetitions && ctx.sound(ctx.initial) && ctx.sound(run.final)
    ensures InLimits(ctx.limits, run.executor) && run.executor.exit == Some(0)
    ensures RanStage(run.executor, run.role, ctx.repetition, "executor", [ctx.initial], [])
    ensures run.executor.finished <= run.snapshot
    ensures (set c | c in run.captures :: c.id) == (set k | k in ctx.checks && k.phase != Paired :: k.id)
    ensures forall i, j | 0 <= i < j < |run.captures| :: run.captures[i].id != run.captures[j].id
    ensures forall check, c | check in ctx.checks && check.phase != Paired && c in run.captures && c.id == check.id ::
              Confirmed(ctx, run, check, c)
  {
    hide CaptureOk, Confirmed;
    assert RoleCheckIds(ctx) == (set k | k in ctx.checks && k.phase != Paired :: k.id);
    forall check, c | check in ctx.checks && check.phase != Paired && c in run.captures && c.id == check.id
      ensures Confirmed(ctx, run, check, c)
    {
      assert TraceOk(ctx, run, check, c);
      TraceMeans(ctx, run, check, c);
    }
    forall i, j | 0 <= i < j < |run.captures| ensures run.captures[i].id != run.captures[j].id {
      assert CaptureIds(run.captures)[i] != CaptureIds(run.captures)[j];
    }
  }

  lemma TraceMeans(ctx: Context, run: Run, check: Check, c: Capture)
    requires TraceOk(ctx, run, check, c) && check.phase != Paired
    ensures Confirmed(ctx, run, check, c)
  {
    hide CaptureOk, CheckRan;
    if check.phase == Pre {
      CaptureMeans(ctx, check, c, run.role, [ctx.initial], 0, map[Initial := ctx.initial, Current := ctx.initial]);
    } else {
      CaptureMeans(ctx, check, c, run.role, [ctx.initial, run.final], run.snapshot,
                   map[Initial := ctx.initial, Current := run.final]);
    }
  }

  // ------------------------------------------------------------------------- an accepted pair

  /**
   What acceptance of a pair says besides the order of its stages: both trees are sound and in
   scope, both executors and all checks and probes of both roles ended cleanly within the limits,
   each on the inputs its stage demands, and every role check said what is expected of its role.
   */
  lemma AcceptedRuns(ctx: Context, old': Run, new': Run, paired: seq<Capture>, oldRecord: string, newRecord: string)
    requires Accepted(ctx, old', new', paired, oldRecord, newRecord)
    ensures old'.role == Old && new'.role == New && RunValid(ctx, old') && RunValid(ctx, new')
    ensures ctx.sound(ctx.initial) && ctx.sound(old'.final) && ctx.sound(new'.final)
    ensures ctx.inScope(ctx.initial, old'.final) && ctx.inScope(ctx.initial, new'.final)
    ensures forall run | run == old' || run == new' ::
              && InLimits(ctx.limits, run.executor) && run.executor.exit == Some(0)
              && RanStage(run.executor, run.role, ctx.repetition, "executor", [ctx.initial], [])
              && (set c | c in run.captures :: c.id) == (set k | k in ctx.checks && k.phase != Paired :: k.id)
              && forall check, c | check in ctx.checks && check.phase != Paired && c in run.captures
                                && c.id == check.id :: Confirmed(ctx, run, check, c)
    ensures exists c :: c in ctx.checks && c.role == Target
    ensures exists c :: c in ctx.checks && c.role == Invariant
    ensures exists c :: c in ctx.checks && c.role == Spillover
  {
    hide RunValid, Confirmed, CaptureOk, Latest, PreCaptures, Containers, NoDups, Membership, InPhase, PairTraceOk,
      InLimits, RanStage;
    RunMeans(ctx, old');
    RunMeans(ctx, new');
  }

  /** A pair one of whose final trees is unsound or out of scope is never accepted. */
  lemma OutOfScopeRefused(ctx: Context, old': Run, new': Run, paired: seq<Capture>, oldRecord: string,
                          newRecord: string)
    requires || !ctx.inScope(ctx.initial, old'.final) || !ctx.inScope(ctx.initial, new'.final)
             || !ctx.sound(old'.final) || !ctx.sound(new'.final)
    ensures !Accepted(ctx, old', new', paired, oldRecord, newRecord)
  {
    hide Accepted, RunValid, Confirmed, InLimits, RanStage;
    if Accepted(ctx, old', new', paired, oldRecord, newRecord) {
      AcceptedRuns(ctx, old', new', paired, oldRecord, newRecord);
    }
  }

  /** The trees a pair check is about. */
  function PairTrees(ctx: Context, old': Run, new': Run): map<InputState, string> {
    map[Initial := ctx.initial, OldFinal := old'.final, NewFinal := new'.final]
  }

  /**
   The pair checks of an accepted pair are those of the profile, in its order and at least one;
   each was carried out on all three trees and both run records, and held.
   */
  lemma AcceptedPairChecks(ctx: Context, old': Run, new': Run, paired: seq<Capture>, oldRecord: string,
                           newRecord: string)
    requires Accepted(ctx, old', new', paired, oldRecord, newRecord)
    ensures var checks := InPhase(ctx.checks, Paired);
            && |paired| == |checks| > 0
            && (forall check :: check in checks <==> check in ctx.checks && check.phase == Paired)
            && forall i | 0 <= i < |paired| ::
                 && paired[i].id == checks[i].id
                 && CheckRan(ctx, checks[i], paired[i], Both,
                             [ctx.initial, old'.final, new'.final, oldRecord, newRecord], PairTrees(ctx, old', new'))
                 && ctx.observe(paired[i].process.stdout, checks[i].id) == Some(true)
    ensures forall i, j | 0 <= i < j < |paired| :: paired[i].id != paired[j].id
  {
    hide RunValid, CaptureOk, Latest, PreCaptures, Containers, InPhase, CheckRan;
    InPhaseMembers(ctx.checks, Paired);
    forall i | 0 <= i < |paired|
      ensures CheckRan(ctx, InPhase(ctx.checks, Paired)[i], paired[i], Both,
                       [ctx.initial, old'.final, new'.final, oldRecord, newRecord], PairTrees(ctx, old', new'))
    {
      PairCheckRan(ctx, old', new', paired, oldRecord, newRecord, i);
    }
    forall i, j | 0 <= i < j < |paired| ensures paired[i].id != paired[j].id {
      assert CaptureIds(paired)[i] != CaptureIds(paired)[j];
    }
  }

  lemma PairCheckRan(ctx: Context, old': Run, new': Run, paired: seq<Capture>, oldRecord: string, newRecord: string,
                     i: nat)
    requires Accepted(ctx, old', new', paired, oldRecord, newRecord) && i < |paired|
    ensures i < |InPhase(ctx.checks, Paired)|
    ensures CheckRan(ctx, InPhase(ctx.checks, Paired)[i], paired[i], Both,
                     [ctx.initial, old'.final, new'.final, oldRecord, newRecord], PairTrees(ctx, old', new'))
  {
    hide RunValid, CaptureOk, Latest, PreCaptures, Containers, InPhase, CheckRan, Membership, NoDups;
    var check, earliest := InPhase(ctx.checks, Paired)[i], Latest(old'.captures + new'.captures);
    assert PairTraceOk(ctx, check, paired[i], PairInputs(ctx, old', new', oldRecord, newRecord), earliest);
    CaptureMeans(ctx, check, paired[i], Both, [ctx.initial, old'.final, new'.final, oldRecord, newRecord], earliest,
                 PairTrees(ctx, old', new'));
  }

  // ---------------------------------------------------------------- what a pair may go on with

  /** A stage of the log in which this pre check of the role ran on the initial tree and was seen to hold. */
  predicate HeldAt(ctx: Context, log: Log, k: nat, check: Check, role: StageRole) {
    && k < |log| && log[k].what == Checking(check) && log[k].outcome.Ran?
    && log[k].subject.role == role && log[k].subject.repetition == ctx.repetition
    && log[k].subject.inputs == [ctx.initial]
    && var p := log[k].outcome.process;
    && p.exit == Some(0) && p.terminated && !p.timedOut && !p.outputLimited
    && ctx.observe(p.stdout, check.id) == Some(true)
  }

  /**
   Where executors may start, every pre check of the profile has run for both roles in the stages
   since the pair began, each to a clean end, and was seen to hold.
   */
  lemma ClearedMeans(ctx: Context, log: Log, base: nat, check: Check, role: StageRole)
    requires Cleared(ctx, log, base) && check in ctx.checks && check.phase == Pre && role != Both
    ensures exists k :: base <= k < OldExecutor(ctx, base) && HeldAt(ctx, log, k, check, role)
  {
    hide InPhase, HeldAt;
    InPhaseMembers(ctx.checks, Pre);
    var checks := InPhase(ctx.checks, Pre);
    var i :| 0 <= i < |checks| && checks[i] == check;
    var from := if role == Old then base else base + PreSpan(ctx);
    var pre := CapturesAt(log, from, checks);
    var k := StageOf(ctx, log, from, checks, PreSetting(ctx, role), i);
    SpanGrows(checks, i);
    var all := PreAt(ctx, log, base) + PreAt(ctx, log, base + PreSpan(ctx));
    var j := if role == Old then i else |PreAt(ctx, log, base)| + i;
    assert all[j] == pre[i];
    HeldThere(ctx, log, k, check, role, pre[i]);
  }

  lemma HeldThere(ctx: Context, log: Log, k: nat, check: Check, role: StageRole, c: Capture)
    requires k < |log| && log[k].what == Checking(check) && c.process == ProcessAt(log, k) && c.id == check.id
    requires log[k].subject.role == role && log[k].subject.repetition == ctx.repetition
    requires log[k].subject.inputs == [ctx.initial]
    requires Observed(ctx, c) == Some(true)
    ensures HeldAt(ctx, log, k, check, role)
  {
  }

  lemma {:induction false} SpanGrows(checks: seq<Check>, i: nat)
    requires i < |checks|
    ensures Span(checks[..i]) + |checks[i].probes| < Span(checks)
    decreases |checks|
  {
    var n := |checks| - 1;
    if i < n {
      SpanGrows(checks[..n], i);
      assert checks[..n][..i] == checks[..i];
    }
  }

  /** The stage in which the i-th check of a phase ran, and the capture made of it. */
  lemma {:induction false} StageOf(ctx: Context, log: Log, from: nat, checks: seq<Check>, on: Setting, i: nat)
    returns (k: nat)
    requires PhaseRun(ctx, log, from, checks, on) && i < |checks|
    ensures k == from + Span(checks[..i]) + |checks[i].probes| < |log|
    ensures log[k].what == Checking(checks[i]) && log[k].subject.role == on.role
    ensures log[k].subject.repetition == ctx.repetition && log[k].subject.inputs == on.inputs
    ensures CapturesAt(log, from, checks)[i].process == ProcessAt(log, k)
    ensures CapturesAt(log, from, checks)[i].id == checks[i].id
    decreases |checks|
  {
    var n := |checks| - 1;
    if i < n {
      k := StageOf(ctx, log, from, checks[..n], on, i);
      assert checks[..n][..i] == checks[..i];
    } else {
      k := from + Span(checks[..n]) + |checks[n].probes|;
    }
  }

  /**
   Where pair checks may start, both roles left a tree, and exactly the role checks of the profile
   were captured for each, every one by a process that ended cleanly and said something.
   */
  lemma ComparableMeans(ctx: Context, old': PartialRun, new': PartialRun)
    requires Comparable(ctx, old', new')
    ensures old'.captured != None && new'.captured != None
    ensures forall run | run == old' || run == new' ::
              && (set c | c in run.captures :: c.id) == (set k | k in ctx.checks && k.phase != Paired :: k.id)
              && forall c | c in run.captures ::
                   && c.process.exit == Some(0) && c.process.terminated
                   && !c.process.timedOut && !c.process.outputLimited
                   && ctx.observe(c.process.stdout, c.id) != None
  {
    hide PostComplete;
    CompleteMeans(ctx, old'.captures);
    CompleteMeans(ctx, new'.captures);
  }

  lemma CompleteMeans(ctx: Context, captures: seq<Capture>)
    requires PostComplete(ctx, captures)
    ensures (set c | c in captures :: c.id) == (set k | k in ctx.checks && k.phase != Paired :: k.id)
    ensures forall c | c in captures ::
              && c.process.exit == Some(0) && c.process.terminated && !c.process.timedOut && !c.process.outputLimited
              && ctx.observe(c.process.stdout, c.id) != None
  {
    assert RoleCheckIds(ctx) == (set k | k in ctx.checks && k.phase != Paired :: k.id);
    forall c | c in captures ensures Observed(ctx, c).Some? {
      var i :| 0 <= i < |captures| && captures[i] == c;
    }
  }

  /**
   A report says something about a role check only if the check was run properly, before the
   executor or after the snapshot as its phase demands, and its output said so.
   */
  lemma TraceReports(ctx: Context, run: Run, check: Check)
    requires RoleTrace(ctx, run, check).observation != None || RoleTrace(ctx, run, check).valid
    ensures exists c :: && c in run.captures && c.id == check.id
                        && CheckRan(ctx, check, c, run.role, Inputs(ctx, run, check), map[Initial := ctx.initial])
                        && (check.phase == Pre ==> c.process.finished <= run.executor.started)
                        && (check.phase == Post ==> run.snapshot <= c.process.started)
                        && ctx.observe(c.process.stdout, check.id) == RoleTrace(ctx, run, check).observation
    ensures RoleTrace(ctx, run, check).valid && RoleTrace(ctx, run, check).observation != None
  {
    hide CaptureOk, CheckRan;
    var c := CaptureFor(run.captures, check.id).value;
    CaptureMeans(ctx, check, c, run.role, Inputs(ctx, run, check), if check.phase.Pre? then 0 else run.snapshot,
                 map[Initial := ctx.initial]);
  }

  // ------------------------------------------------------------------------ all repetitions

  /** Reports that are one for each repetition have no repetition twice and none out of range. */
  lemma RepetitionsMean(reports: seq<Report>, repetitions: nat)
    ensures EachOnce(reports, repetitions) <==>
              && |reports| == repetitions
              && (forall i, j | 0 <= i < j < |reports| :: reports[i].repetition != reports[j].repetition)
              && (forall i | 0 <= i < |reports| :: reports[i].repetition < repetitions)
  {
    var below := Below(repetitions);
    var indices := seq(|reports|, k requires 0 <= k < |reports| => reports[k].repetition);
    assert forall x: nat :: x in Indices(reports) <==> x in Members(indices) by {
      SameIndices(reports, indices);
    }
    CountMembers(indices);
    if EachOnce(reports, repetitions) {
      assert below <= Members(indices);
      SubsetCount(below, Members(indices));
      assert Members(indices) == below;
      forall k | 0 <= k < |reports| ensures reports[k].repetition < repetitions {
        assert indices[k] in Members(indices);
      }
      forall i, j | 0 <= i < j < |reports| ensures reports[i].repetition != reports[j].repetition {
        assert indices[i] != indices[j];
      }
    }
    if && |reports| == repetitions
       && (forall i, j | 0 <= i < j < |reports| :: reports[i].repetition != reports[j].repetition)
       && (forall i | 0 <= i < |reports| :: reports[i].repetition < repetitions)
    {
      assert Members(indices) <= below;
      SubsetCount(Members(indices), below);
      assert forall i: nat | i < repetitions :: i in Indices(reports);
    }
  }

  function Members(xs: seq<nat>): set<nat> {
    set x | x in xs
  }

  lemma SameIndices(reports: seq<Report>, indices: seq<nat>)
    requires |indices| == |reports| && forall k | 0 <= k < |reports| :: indices[k] == reports[k].repetition
    ensures forall x: nat :: x in Indices(reports) <==> x in Members(indices)
  {
    forall x: nat | x in Indices(reports) ensures x in Members(indices) {
      var k :| 0 <= k < |reports| && reports[k].repetition == x;
      assert indices[k] == x;
    }
    forall x: nat | x in Members(indices) ensures x in Indices(reports) {
      var k :| 0 <= k < |indices| && indices[k] == x;
      assert reports[k] in reports;
    }
  }

  function Below(n: nat): (below: set<nat>)
    ensures forall i: nat :: i in below <==> i < n
    ensures |below| == n
  {
    if n == 0 then {} else Below(n - 1) + {n - 1}
  }

  /** A list has as many different members as places exactly when no member repeats. */
  lemma {:induction false} CountMembers(xs: seq<nat>)
    ensures |Members(xs)| <= |xs|
    ensures |Members(xs)| == |xs| <==> forall i, j | 0 <= i < j < |xs| :: xs[i] != xs[j]
    decreases |xs|
  {
    if xs != [] {
      var n := |xs| - 1;
      CountMembers(xs[..n]);
      assert xs == xs[..n] + [xs[n]];
      assert Members(xs) == Members(xs[..n]) + {xs[n]};
      if xs[n] in xs[..n] {
        assert Members(xs) == Members(xs[..n]);
        var i :| 0 <= i < n && xs[..n][i] == xs[n];
      } else {
        assert forall i, j | 0 <= i < j < n :: xs[..n][i] == xs[i] && xs[..n][j] == xs[j];
      }
    }
  }

  lemma SubsetCount(a: set<nat>, b: set<nat>)
    requires a <= b
    ensures |a| <= |b| && (|a| == |b| ==> a == b)
  {
    assert b == a + (b - a);
  }

  /** The group is valid exactly when all fingerprints are one and the same valid one. */
  lemma GroupMeans(reports: seq<Report>)
    ensures AllValid(reports) && AllAgree(reports) <==>
              && reports != []
              && exists f: Fingerprint :: f.valid && forall i | 0 <= i < |reports| :: reports[i].fingerprint == f
  {
    if AllValid(reports) && AllAgree(reports) {
      var f := reports[0].fingerprint;
      assert f.valid && forall i | 0 <= i < |reports| :: reports[i].fingerprint == f;
    }
  }
}
