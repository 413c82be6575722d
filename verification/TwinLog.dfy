/**
 The log of the stages a twin run goes through, and what the log of a well-behaved pair looks like.

 Everything is stated about the stages that were actually run, in the order they were run: the
 invocation, the subject it was run for and the outcome the container runtime gave.
 */
module TwinLog {
  import opened Common
  import opened TwinEvaluation

  datatype Invocation = Executing | Probing(probe: Probe) | Checking(check: Check)

  /** What the container runtime reports; the tree captured after the process comes with its time. */
  datatype Outcome =
    | Unavailable(retained: bool)
    | Ran(process: Process, captured: Option<(string, nat)>, blockers: seq<string>, retained: bool)

  datatype StageRecord = StageRecord(what: Invocation, subject: Subject, outcome: Outcome)

  type Log = seq<StageRecord>

  type Trees = map<InputState, string>

  const NO_SUBJECT := Subject(Both, 0, "", [], [])
  const NO_PROCESS := Process(NO_SUBJECT, "", 0, 0, None, false, false, false, "", "")

  function ProcessAt(log: Log, k: nat): Process {
    if k < |log| && log[k].outcome.Ran? then log[k].outcome.process else NO_PROCESS
  }

  /** The tree captured after a stage and the time of its snapshot. */
  function TreeAt(log: Log, k: nat): (string, nat) {
    if k < |log| && log[k].outcome.Ran? && log[k].outcome.captured.Some? then log[k].outcome.captured.value
    else ("", 0)
  }

  // ------------------------------------------------------------ which stages make up a pair

  function ProbeSubject(ctx: Context, role: StageRole, probe: Probe, trees: Trees): Subject {
    Subject(role, ctx.repetition, probe.id, [if probe.input in trees then trees[probe.input] else ""], [])
  }

  function ExecutorSubject(ctx: Context, role: StageRole): Subject {
    Subject(role, ctx.repetition, EXECUTOR, [ctx.initial], [])
  }

  function Width(check: Check): nat {
    |check.probes| + 1
  }

  function Span(checks: seq<Check>): nat
    decreases |checks|
  {
    if checks == [] then 0 else Span(checks[..|checks| - 1]) + Width(checks[|checks| - 1])
  }

  function ProbesAt(log: Log, k: nat, n: nat): seq<Process> {
    seq(n, i requires 0 <= i < n => ProcessAt(log, k + i))
  }

  /** The capture of a check whose first stage is number k: its probes, then the check itself. */
  function CaptureAt(log: Log, k: nat, check: Check): Capture {
    Capture(check.id, ProcessAt(log, k + |check.probes|), ProbesAt(log, k, |check.probes|))
  }

  function CapturesAt(log: Log, k: nat, checks: seq<Check>): (cs: seq<Capture>)
    ensures |cs| == |checks|
    decreases |checks|
  {
    if checks == [] then []
    else
      var front := checks[..|checks| - 1];
      CapturesAt(log, k, front) + [CaptureAt(log, k + Span(front), checks[|checks| - 1])]
  }

  /** What a role's checks and probes are run on; before the executor ran both trees are the initial one. */
  datatype Setting = Setting(role: StageRole, trees: Trees, inputs: seq<string>)

  function PreSetting(ctx: Context, role: StageRole): Setting {
    Setting(role, map[Initial := ctx.initial, Current := ctx.initial], [ctx.initial])
  }

  function PostSetting(ctx: Context, role: StageRole, final: string): Setting {
    Setting(role, map[Initial := ctx.initial, Current := final], [ctx.initial, final])
  }

  function PairSetting(ctx: Context, oldFinal: string, newFinal: string, oldRecord: string,
                       newRecord: string): Setting {
    Setting(Both, map[Initial := ctx.initial, OldFinal := oldFinal, NewFinal := newFinal],
            [ctx.initial, oldFinal, newFinal, oldRecord, newRecord])
  }

  predicate ProbeRun(ctx: Context, log: Log, k: nat, probe: Probe, on: Setting) {
    k < |log| && log[k].what == Probing(probe) && log[k].subject == ProbeSubject(ctx, on.role, probe, on.trees)
  }

  /** The stages from k on are the probes of the check and then the check over their observations. */
  predicate CheckRun(ctx: Context, log: Log, k: nat, check: Check, on: Setting) {
    var n := |check.probes|;
    && k + n < |log|
    && (forall i | 0 <= i < n :: ProbeRun(ctx, log, k + i, check.probes[i], on))
    && log[k + n].what == Checking(check)
    && log[k + n].subject == Subject(on.role, ctx.repetition, check.id, on.inputs, ProbesAt(log, k, n))
  }

  predicate PhaseRun(ctx: Context, log: Log, k: nat, checks: seq<Check>, on: Setting)
    decreases |checks|
  {
    if checks == [] then true
    else
      var front := checks[..|checks| - 1];
      PhaseRun(ctx, log, k, front, on) && CheckRun(ctx, log, k + Span(front), checks[|checks| - 1], on)
  }

  predicate ExecutorRun(ctx: Context, log: Log, k: nat, role: StageRole) {
    k < |log| && log[k].what == Executing && log[k].subject == ExecutorSubject(ctx, role)
  }

  // -------------------------------------------------------- what a whole pair records

  /** What is recorded about a run, complete or not. */
  datatype PartialRun =
    PartialRun(role: StageRole, captured: Option<(string, nat)>, executor: Option<Process>, captures: seq<Capture>)
  {
    predicate Complete() {
      captured.Some? && executor.Some?
    }

    function Completed(): Run
      requires Complete()
    {
      Run(role, captured.value.0, captured.value.1, executor.value, captures)
    }
  }

  datatype PairRecord = PairRecord(old': PartialRun, new': PartialRun, paired: seq<Capture>)

  function Whole(run: Run): PartialRun {
    PartialRun(run.role, Some((run.final, run.snapshot)), Some(run.executor), run.captures)
  }

  function PreSpan(ctx: Context): nat { Span(InPhase(ctx.checks, Pre)) }

  function PostSpan(ctx: Context): nat { Span(InPhase(ctx.checks, Post)) }

  function PairSpan(ctx: Context): nat { Span(InPhase(ctx.checks, Paired)) }

  function PreAt(ctx: Context, log: Log, k: nat): seq<Capture> {
    CapturesAt(log, k, InPhase(ctx.checks, Pre))
  }

  function PostAt(ctx: Context, log: Log, k: nat): seq<Capture> {
    CapturesAt(log, k, InPhase(ctx.checks, Post))
  }

  /** The record of a role whose executor is stage number k. */
  function RoleAt(ctx: Context, log: Log, k: nat, role: StageRole, pre: seq<Capture>): Run {
    Run(role, TreeAt(log, k).0, TreeAt(log, k).1, ProcessAt(log, k), pre + PostAt(ctx, log, k + 1))
  }

  /** Stage number k is the role's executor and the post checks on its tree follow it. */
  predicate RoleRun(ctx: Context, log: Log, k: nat, role: StageRole) {
    && ExecutorRun(ctx, log, k, role)
    && PhaseRun(ctx, log, k + 1, InPhase(ctx.checks, Post), PostSetting(ctx, role, TreeAt(log, k).0))
  }

  function OldExecutor(ctx: Context, base: nat): nat { base + 2 * PreSpan(ctx) }

  function NewExecutor(ctx: Context, base: nat): nat { OldExecutor(ctx, base) + 1 + PostSpan(ctx) }

  function PairStart(ctx: Context, base: nat): nat { NewExecutor(ctx, base) + 1 + PostSpan(ctx) }

  function PairEnd(ctx: Context, base: nat): nat { PairStart(ctx, base) + PairSpan(ctx) }

  /** The old run: its pre checks are the first stages, its executor follows the pre checks of both roles. */
  function OldAt(ctx: Context, log: Log, base: nat): Run {
    RoleAt(ctx, log, OldExecutor(ctx, base), Old, PreAt(ctx, log, base))
  }

  function NewAt(ctx: Context, log: Log, base: nat): Run {
    RoleAt(ctx, log, NewExecutor(ctx, base), New, PreAt(ctx, log, base + PreSpan(ctx)))
  }

  function PairedAt(ctx: Context, log: Log, base: nat): seq<Capture> {
    CapturesAt(log, PairStart(ctx, base), InPhase(ctx.checks, Paired))
  }

  /** The pre checks of both roles, one role after the other. */
  predicate PreRun(ctx: Context, log: Log, base: nat) {
    && PhaseRun(ctx, log, base, InPhase(ctx.checks, Pre), PreSetting(ctx, Old))
    && PhaseRun(ctx, log, base + PreSpan(ctx), InPhase(ctx.checks, Pre), PreSetting(ctx, New))
  }

  /** The stages from base on are those of one whole pair, in the order the runner goes through them. */
  predicate PairRun(ctx: Context, log: Log, base: nat, oldRecord: string, newRecord: string) {
    && PreRun(ctx, log, base)
    && RoleRun(ctx, log, OldExecutor(ctx, base), Old)
    && RoleRun(ctx, log, NewExecutor(ctx, base), New)
    && PhaseRun(ctx, log, PairStart(ctx, base), InPhase(ctx.checks, Paired),
                PairSetting(ctx, OldAt(ctx, log, base).final, NewAt(ctx, log, base).final, oldRecord, newRecord))
  }

  // ------------------------------------------------------------------- well-behaved stages

  /**
   The stage did what it should: right subject, in limits, nothing retained.  An executor and a
   check must exit cleanly, a probe may exit with any code; an executor leaves a sound tree in
   scope, a check says what its profile expects of the role.
   */
  predicate StageOk(ctx: Context, r: StageRecord) {
    && r.outcome.Ran?
    && ProcessOk(ctx.limits, r.outcome.process, r.subject, r.what.Probing?)
    && r.outcome.blockers == [] && !r.outcome.retained
    && match r.what {
      case Executing =>
        && r.outcome.captured.Some?
        && r.outcome.process.finished <= r.outcome.captured.value.1
        && ctx.sound(r.outcome.captured.value.0)
        && ctx.inScope(ctx.initial, r.outcome.captured.value.0)
      case Probing(_) => true
      case Checking(check) =>
        ctx.observe(r.outcome.process.stdout, check.id) == Some(check.Expected(r.subject.role))
    }
  }

  /** Every stage numbered from lo up to hi is fine on its own. */
  predicate Clean(ctx: Context, log: Log, lo: nat, hi: nat) {
    hi <= |log| && forall i | lo <= i < hi :: StageOk(ctx, log[i])
  }

  /** When a stage is over: for an executor, when its tree has been captured. */
  function EndAt(log: Log, k: nat): nat {
    if k < |log| && log[k].what.Executing? then TreeAt(log, k).1 else ProcessAt(log, k).finished
  }

  /** Each of these stages starts after the ones before it are over, in a container of its own. */
  predicate InOrder(log: Log, lo: nat, hi: nat) {
    forall i, j | lo <= i < j < hi ::
      EndAt(log, i) <= ProcessAt(log, j).started && ProcessAt(log, i).container != ProcessAt(log, j).container
  }

  /** The stages numbered from lo up to hi went well, on a clock that never goes back, in fresh containers. */
  predicate Healthy(ctx: Context, log: Log, lo: nat, hi: nat) {
    Clean(ctx, log, lo, hi) && InOrder(log, lo, hi)
  }

  function Ids(checks: seq<Check>): seq<string> {
    seq(|checks|, i requires 0 <= i < |checks| => checks[i].id)
  }

  /** Which trees the probes of a check may look at. */
  predicate Fitting(checks: seq<Check>) {
    forall i, j | 0 <= i < |checks| && 0 <= j < |checks[i].probes| ::
      var input := checks[i].probes[j].input;
      if checks[i].phase.Paired? then !input.Current? else input.Initial? || input.Current?
  }

  /** What binding a profile to a contract guarantees about its checks. */
  predicate ProfileOk(checks: seq<Check>) {
    && NoDups(Ids(checks))
    && RolesPresent(checks)
    && (exists c :: c in checks && !c.phase.Paired?)
    && (forall c | c in checks && c.phase.Pre? :: c.oldExpected && c.newExpected)
    && Fitting(checks)
  }

  /** A bound profile, a repetition it asks for and a sound initial tree. */
  predicate ContextOk(ctx: Context) {
    ProfileOk(ctx.checks) && ctx.repetition < ctx.repetitions && ctx.sound(ctx.initial)
  }

  predicate HasPairCheck(ctx: Context) {
    exists c :: c in ctx.checks && c.phase.Paired?
  }

  /** What a check said, when its process can be trusted at all. */
  function Observed(ctx: Context, c: Capture): Option<bool> {
    if c.process.exit != Some(0) || !c.process.terminated || c.process.timedOut || c.process.outputLimited then None
    else ctx.observe(c.process.stdout, c.id)
  }

  predicate AllTrue(ctx: Context, captures: seq<Capture>) {
    forall i | 0 <= i < |captures| :: Observed(ctx, captures[i]) == Some(true)
  }

  predicate PostComplete(ctx: Context, captures: seq<Capture>) {
    && (set c | c in captures :: c.id) == RoleCheckIds(ctx)
    && forall i | 0 <= i < |captures| :: Observed(ctx, captures[i]).Some?
  }

  /** Every pre check of both roles ran, in order, and observed what it has to. */
  predicate Cleared(ctx: Context, log: Log, base: nat) {
    PreRun(ctx, log, base) && AllTrue(ctx, PreAt(ctx, log, base) + PreAt(ctx, log, base + PreSpan(ctx)))
  }

  // ------------------------------------------------------------- growing logs and phases

  lemma {:induction false} InPhaseMembers(checks: seq<Check>, phase: Phase)
    ensures forall c :: c in InPhase(checks, phase) <==> c in checks && c.phase == phase
    decreases |checks|
  {
    if checks == [] {
    } else {
      var n := |checks| - 1;
      InPhaseMembers(checks[..n], phase);
      assert checks == checks[..n] + [checks[n]];
    }
  }

  lemma InPhaseStep(checks: seq<Check>, i: nat, phase: Phase)
    requires i < |checks|
    ensures InPhase(checks[..i + 1], phase)
         == InPhase(checks[..i], phase) + (if checks[i].phase == phase then [checks[i]] else [])
  {
    assert checks[..i + 1][..i] == checks[..i];
  }

  lemma CheckKept(ctx: Context, log: Log, log': Log, k: nat, check: Check, on: Setting)
    requires log <= log' && CheckRun(ctx, log, k, check, on)
    ensures CheckRun(ctx, log', k, check, on) && CaptureAt(log', k, check) == CaptureAt(log, k, check)
  {
    assert log == log'[..|log|];
    forall j: nat | j < |log| ensures ProcessAt(log', j) == ProcessAt(log, j) {
      assert log'[j] == log[j];
    }
    assert ProbesAt(log', k, |check.probes|) == ProbesAt(log, k, |check.probes|);
    forall i | 0 <= i < |check.probes| ensures ProbeRun(ctx, log', k + i, check.probes[i], on) {
      assert ProbeRun(ctx, log, k + i, check.probes[i], on);
    }
  }

  /** Stages run later do not change what earlier ones are. */
  lemma {:induction false} PhaseKept(ctx: Context, log: Log, log': Log, k: nat, checks: seq<Check>, on: Setting)
    requires log <= log' && PhaseRun(ctx, log, k, checks, on)
    ensures PhaseRun(ctx, log', k, checks, on) && CapturesAt(log', k, checks) == CapturesAt(log, k, checks)
    decreases |checks|
  {
    hide CheckRun, CaptureAt;
    if checks == [] {
    } else {
      var n := |checks| - 1;
      PhaseKept(ctx, log, log', k, checks[..n], on);
      CheckKept(ctx, log, log', k + Span(checks[..n]), checks[n], on);
    }
  }

  lemma PhaseAppend(ctx: Context, log: Log, k: nat, done: seq<Check>, check: Check, on: Setting)
    requires PhaseRun(ctx, log, k, done, on) && CheckRun(ctx, log, k + Span(done), check, on)
    ensures PhaseRun(ctx, log, k, done + [check], on)
    ensures Span(done + [check]) == Span(done) + Width(check)
    ensures CapturesAt(log, k, done + [check]) == CapturesAt(log, k, done) + [CaptureAt(log, k + Span(done), check)]
  {
    hide CheckRun, CaptureAt;
    assert (done + [check])[..|done|] == done;
  }

  lemma PhaseStart(ctx: Context, log: Log, k: nat, checks: seq<Check>, phase: Phase, on: Setting)
    ensures InPhase(checks[..0], phase) == [] && Span([]) == 0
    ensures PhaseRun(ctx, log, k, [], on) && CapturesAt(log, k, []) == []
  {
  }

  predicate Supplied(check: Check, trees: Trees) {
    forall i | 0 <= i < |check.probes| :: check.probes[i].input in trees
  }

  /** The trees include all that probes of the phase may look at. */
  predicate Covers(phase: Phase, trees: Trees) {
    && Initial in trees
    && if phase.Paired? then OldFinal in trees && NewFinal in trees else Current in trees
  }

  lemma FittingSupplied(checks: seq<Check>, check: Check, trees: Trees)
    requires Fitting(checks) && check in checks && Covers(check.phase, trees)
    ensures Supplied(check, trees)
  {
    var i :| 0 <= i < |checks| && checks[i] == check;
    forall j | 0 <= j < |check.probes| ensures check.probes[j].input in trees {
      assert checks[i].probes[j] == check.probes[j];
    }
  }
}
