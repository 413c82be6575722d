/**
 The evaluator of twin runs: it accepts a pair of recorded runs only when every process was
 the expected one, in limits, in the right order and in its own container.

 Subjects are injective identities, so they are free constructors over what they bind.  The
 observation in a check's output is an uninterpreted function of the text.
 */
module TwinEvaluation {
  import opened Common

  datatype Phase = Pre | Post | Paired

  datatype CheckRole = Target | Invariant | Spillover | Guard

  datatype StageRole = Old | New | Both

  datatype InputState = Initial | Current | OldFinal | NewFinal

  datatype Probe = Probe(id: string, input: InputState)

  datatype Check =
    Check(id: string, role: CheckRole, phase: Phase, probes: seq<Probe>, oldExpected: bool, newExpected: bool)
  {
    function Expected(side: StageRole): bool {
      match side
      case Old => oldExpected
      case New => newExpected
      case Both => true
    }
  }

  datatype Subject = Subject(role: StageRole, repetition: nat, stage: string, inputs: seq<string>, probes: seq<Process>)

  datatype Process =
    Process(subject: Subject, container: string, started: nat, finished: nat, exit: Option<int>,
            terminated: bool, timedOut: bool, outputLimited: bool, stdout: string, stderr: string)

  datatype Capture = Capture(id: string, process: Process, probes: seq<Process>)

  datatype Run = Run(role: StageRole, final: string, snapshot: nat, executor: Process, captures: seq<Capture>)

  datatype Limits = Limits(timeout: nat, stdout: nat, stderr: nat)

  /**
   What a pair is evaluated against: the profile's checks, the initial tree, the repetition and how
   many there are, the limits, what an output says about a check, whether a tree is a sound
   snapshot, and whether a final tree stays in the contract's scope.
   */
  datatype Context =
    Context(checks: seq<Check>, initial: string, repetition: nat, repetitions: nat, limits: Limits,
            observe: (string, string) -> Option<bool>, sound: string -> bool, inScope: (string, string) -> bool)

  const EXECUTOR := "executor"

  // -------------------------------------------------------------------- processes

  predicate NoDups(xs: seq<string>) {
    forall i, j | 0 <= i < j < |xs| :: xs[i] != xs[j]
  }

  predicate ProcessOk(limits: Limits, p: Process, expected: Subject, probe: bool) {
    && p.subject == expected
    && p.exit.Some? && (if probe then p.exit.value >= 0 else p.exit.value == 0)
    && p.terminated && !p.timedOut && !p.outputLimited
    && p.started <= p.finished && p.finished - p.started <= limits.timeout
    && |p.stdout| <= limits.stdout && |p.stderr| <= limits.stderr
  }

  /** The tree a probe looks at, among the inputs of its check. */
  function StateDigest(role: StageRole, inputs: seq<string>, state: InputState): Option<string> {
    match state
    case Initial => if |inputs| > 0 then Some(inputs[0]) else None
    case Current => if |inputs| > 0 then Some(inputs[|inputs| - 1]) else None
    case OldFinal => if role.Both? && |inputs| > 2 then Some(inputs[1]) else None
    case NewFinal => if role.Both? && |inputs| > 2 then Some(inputs[2]) else None
  }

  function ContainersOf(c: Capture): seq<string> {
    [c.process.container] + seq(|c.probes|, i requires 0 <= i < |c.probes| => c.probes[i].container)
  }

  function Containers(captures: seq<Capture>): seq<string>
    decreases |captures|
  {
    if captures == [] then [] else Containers(captures[..|captures| - 1]) + ContainersOf(captures[|captures| - 1])
  }

  predicate ProbeOk(ctx: Context, binding: Probe, observed: Process, role: StageRole, inputs: seq<string>,
                    earliest: nat, start: nat) {
    && StateDigest(role, inputs, binding.input).Some?
    && ProcessOk(ctx.limits, observed,
                 Subject(role, ctx.repetition, binding.id, [StateDigest(role, inputs, binding.input).value], []), true)
    && earliest <= observed.started && observed.finished <= start
  }

  predicate CaptureOk(ctx: Context, check: Check, c: Capture, role: StageRole, inputs: seq<string>, earliest: nat) {
    && |c.probes| == |check.probes|
    && (forall i | 0 <= i < |c.probes| :: ProbeOk(ctx, check.probes[i], c.probes[i], role, inputs, earliest,
                                                  c.process.started))
    && NoDups(ContainersOf(c))
    && earliest <= c.process.started
    && ProcessOk(ctx.limits, c.process, Subject(role, ctx.repetition, check.id, inputs, c.probes), false)
  }

  method CheckCapture(ctx: Context, check: Check, c: Capture, role: StageRole, inputs: seq<string>, earliest: nat)
    returns (ok: bool)
    ensures ok <==> CaptureOk(ctx, check, c, role, inputs, earliest)
  {
    hide ProcessOk;
    if |c.probes| != |check.probes| {
      return false;
    }
    var containers := [c.process.container];
    for i := 0 to |c.probes|
      invariant forall j | 0 <= j < i :: ProbeOk(ctx, check.probes[j], c.probes[j], role, inputs, earliest,
                                                 c.process.started)
      invariant containers == ContainersOf(c)[..i + 1]
    {
      var state := StateDigest(role, inputs, check.probes[i].input);
      if state.None? {
        return false;
      }
      if !ProcessOk(ctx.limits, c.probes[i], Subject(role, ctx.repetition, check.probes[i].id, [state.value], []),
                    true) {
        return false;
      }
      if c.probes[i].started < earliest || c.probes[i].finished > c.process.started {
        return false;
      }
      containers := containers + [c.probes[i].container];
    }
    assert containers == ContainersOf(c);
    if !NoDups(containers) || c.process.started < earliest {
      return false;
    }
    return ProcessOk(ctx.limits, c.process, Subject(role, ctx.repetition, check.id, inputs, c.probes), false);
  }

  // ---------------------------------------------------------------------- single runs

  function InPhase(checks: seq<Check>, phase: Phase): seq<Check>
    decreases |checks|
  {
    if checks == [] then []
    else
      var last := checks[|checks| - 1];
      InPhase(checks[..|checks| - 1], phase) + (if last.phase == phase then [last] else [])
  }

  function CaptureIds(captures: seq<Capture>): seq<string> {
    seq(|captures|, i requires 0 <= i < |captures| => captures[i].id)
  }

  /** The captures are one for each of the checks. */
  predicate Membership(captures: seq<Capture>, ids: set<string>) {
    NoDups(CaptureIds(captures)) && (set c | c in captures :: c.id) == ids
  }

  function RoleCheckIds(ctx: Context): set<string> {
    set c | c in ctx.checks && !c.phase.Paired? :: c.id
  }

  function Inputs(ctx: Context, run: Run, check: Check): seq<string> {
    if check.phase.Pre? then [ctx.initial] else [ctx.initial, run.final]
  }

  /** One role check was captured properly, at the right time, with the expected observation. */
  predicate TraceOk(ctx: Context, run: Run, check: Check, c: Capture) {
    && CaptureOk(ctx, check, c, run.role, Inputs(ctx, run, check), if check.phase.Pre? then 0 else run.snapshot)
    && (check.phase.Pre? ==> c.process.finished <= run.executor.started)
    && (check.phase.Post? ==> run.snapshot <= c.process.started)
    && ctx.observe(c.process.stdout, check.id) == Some(check.Expected(run.role))
  }

  /** The parts of a run record that must hold before any check is looked at. */
  predicate RunReadable(ctx: Context, run: Run) {
    && ctx.repetition < ctx.repetitions
    && ctx.sound(ctx.initial) && ctx.sound(run.final)
    && NoDups(Containers(run.captures) + [run.executor.container])
    && ProcessOk(ctx.limits, run.executor, Subject(run.role, ctx.repetition, EXECUTOR, [ctx.initial], []), false)
    && run.executor.finished <= run.snapshot
    && Membership(run.captures, RoleCheckIds(ctx))
  }

  predicate RunValid(ctx: Context, run: Run) {
    && RunReadable(ctx, run)
    && forall check, c | check in ctx.checks && !check.phase.Paired? && c in run.captures && c.id == check.id ::
         TraceOk(ctx, run, check, c)
  }

  method EvaluateRun(ctx: Context, run: Run) returns (valid: bool)
    ensures valid <==> RunValid(ctx, run)
  {
    hide CaptureOk, RunReadable;
    if !RunReadable(ctx, run) {
      return false;
    }
    valid := true;
    for i := 0 to |ctx.checks|
      invariant valid <==> forall check, c | check in ctx.checks[..i] && !check.phase.Paired? && c in run.captures
                && c.id == check.id ::
                             TraceOk(ctx, run, check, c)
    {
      var check := ctx.checks[i];
      assert ctx.checks[..i + 1] == ctx.checks[..i] + [check];
      ghost var before := valid;
      if !check.phase.Paired? {
        for j := 0 to |run.captures|
          invariant valid <==> before && forall c | c in run.captures[..j] && c.id == check.id ::
                    TraceOk(ctx, run, check, c)
        {
          var c := run.captures[j];
          assert run.captures[..j + 1] == run.captures[..j] + [c];
          if c.id == check.id {
            var ok := CheckCapture(ctx, check, c, run.role, Inputs(ctx, run, check),
                                   if check.phase.Pre? then 0 else run.snapshot);
            if ok && check.phase.Pre? && c.process.finished > run.executor.started {
              ok := false;
            }
            if ok && check.phase.Post? && c.process.started < run.snapshot {
              ok := false;
            }
            if ok && ctx.observe(c.process.stdout, check.id) != Some(check.Expected(run.role)) {
              ok := false;
            }
            valid := valid && ok;
          }
        }
        assert run.captures[..|run.captures|] == run.captures;
      }
    }
    assert ctx.checks[..|ctx.checks|] == ctx.checks;
  }

  // ------------------------------------------------------------------------ the pair

  function Latest(captures: seq<Capture>): (t: nat)
    ensures forall c | c in captures :: c.process.finished <= t
    ensures captures != [] ==> exists c :: c in captures && c.process.finished == t
    decreases |captures|
  {
    if captures == [] then 0
    else
      var last := captures[|captures| - 1];
      assert captures == captures[..|captures| - 1] + [last];
      var t := Latest(captures[..|captures| - 1]);
      if t < last.process.finished then last.process.finished else t
  }

  function PreCaptures(ctx: Context, captures: seq<Capture>): (pre: seq<Capture>)
    ensures forall c :: c in pre <==> c in captures && exists check ::
            check in ctx.checks && check.phase.Pre? && check.id == c.id
    decreases |captures|
  {
    if captures == [] then []
    else
      var last := captures[|captures| - 1];
      assert captures == captures[..|captures| - 1] + [last];
      PreCaptures(ctx, captures[..|captures| - 1])
      + (if exists check :: check in ctx.checks && check.phase.Pre? && check.id == last.id then [last] else [])
  }

  function PairInputs(ctx: Context, old': Run, new': Run, oldRecord: string, newRecord: string): seq<string> {
    [ctx.initial, old'.final, new'.final, oldRecord, newRecord]
  }

  predicate RolesPresent(checks: seq<Check>) {
    && (exists c :: c in checks && c.role.Target?)
    && (exists c :: c in checks && c.role.Invariant?)
    && (exists c :: c in checks && c.role.Spillover?)
  }

  predicate PairTraceOk(ctx: Context, check: Check, c: Capture, inputs: seq<string>, earliest: nat) {
    && check.id == c.id
    && earliest <= c.process.started
    && CaptureOk(ctx, check, c, Both, inputs, earliest)
    && ctx.observe(c.process.stdout, check.id) == Some(true)
  }

  /** The whole report has no blockers. */
  predicate Accepted(ctx: Context, old': Run, new': Run, paired: seq<Capture>, oldRecord: string, newRecord: string) {
    var checks := InPhase(ctx.checks, Paired);
    var roleCaptures := old'.captures + new'.captures;
    && old'.role.Old? && new'.role.New?
    && RolesPresent(ctx.checks)
    && RunValid(ctx, old') && RunValid(ctx, new')
    && ctx.inScope(ctx.initial, old'.final) && ctx.inScope(ctx.initial, new'.final)
    && NoDups([old'.executor.container, new'.executor.container] + Containers(roleCaptures + paired))
    && Latest(PreCaptures(ctx, roleCaptures)) <= old'.executor.started
    && Latest(PreCaptures(ctx, roleCaptures)) <= new'.executor.started
    && checks != [] && |paired| == |checks| && roleCaptures != []
    && Membership(paired, set c | c in checks :: c.id)
    && forall i | 0 <= i < |checks| ::
         PairTraceOk(ctx, checks[i], paired[i], PairInputs(ctx, old', new', oldRecord, newRecord), Latest(roleCaptures))
  }

  /** Compares two recorded runs and their pair record. */
  method CompareRuns(ctx: Context, old': Run, new': Run, paired: seq<Capture>, oldRecord: string, newRecord: string)
    returns (valid: bool)
    ensures valid <==> Accepted(ctx, old', new', paired, oldRecord, newRecord)
  {
    hide CaptureOk, RunValid, Latest, PreCaptures, Membership, NoDups, Containers, InPhase;
    var oldValid := EvaluateRun(ctx, old');
    var newValid := EvaluateRun(ctx, new');
    valid := oldValid && newValid && RolesPresent(ctx.checks);
    if !old'.role.Old? || !new'.role.New? {
      return false;
    }
    var roleCaptures := old'.captures + new'.captures;
    if !NoDups([old'.executor.container, new'.executor.container] + Containers(roleCaptures + paired)) {
      return false;
    }
    var end := Latest(PreCaptures(ctx, roleCaptures));
    if end > (if old'.executor.started < new'.executor.started then old'.executor.started else new'.executor.started) {
      return false;
    }
    if !ctx.inScope(ctx.initial, old'.final) || !ctx.inScope(ctx.initial, new'.final) {
      valid := false;
    }
    var checks := InPhase(ctx.checks, Paired);
    if checks == [] || !Membership(paired, set c | c in checks :: c.id) || roleCaptures == [] || |paired| != |checks| {
      return false;
    }
    var inputs := PairInputs(ctx, old', new', oldRecord, newRecord);
    var earliest := Latest(roleCaptures);
    for i := 0 to |checks|
      invariant valid <==> oldValid && newValid && RolesPresent(ctx.checks)
                           && ctx.inScope(ctx.initial, old'.final) && ctx.inScope(ctx.initial, new'.final)
                           && forall j | 0 <= j < i :: PairTraceOk(ctx, checks[j], paired[j], inputs, earliest)
    {
      if checks[i].id != paired[i].id || paired[i].process.started < earliest {
        return false;
      }
      var ok := CheckCapture(ctx, checks[i], paired[i], Both, inputs, earliest);
      if !ok {
        return false;
      }
      if ctx.observe(paired[i].process.stdout, checks[i].id) != Some(true) {
        valid := false;
      }
    }
  }

  // --------------------------------------------------------------------- the timeline

  predicate IsPre(ctx: Context, c: Capture) {
    exists check :: check in ctx.checks && check.phase.Pre? && check.id == c.id
  }

  predicate IsPost(ctx: Context, c: Capture) {
    exists check :: check in ctx.checks && check.phase.Post? && check.id == c.id
  }

  /** No process of the capture starts before the time. */
  predicate StartsAfter(c: Capture, t: nat) {
    t <= c.process.started && forall p | p in c.probes :: t <= p.started
  }

  /** The order an accepted pair of runs went through. */
  ghost predicate Timeline(ctx: Context, old': Run, new': Run, paired: seq<Capture>) {
    && (forall run, c | (run == old' || run == new') && c in run.captures && IsPre(ctx, c) ::
          c.process.finished <= old'.executor.started && c.process.finished <= new'.executor.started)
    && (forall run, c | (run == old' || run == new') && c in run.captures && IsPost(ctx, c) ::
          run.executor.finished <= run.snapshot && StartsAfter(c, run.snapshot))
    && (forall run, c, p | (run == old' || run == new') && c in run.captures && p in paired ::
          StartsAfter(p, c.process.finished))
    && (forall run, c, q | (run == old' || run == new') && c in run.captures && q in c.probes ::
        q.finished <= c.process.started)
    && NoDups([old'.executor.container, new'.executor.container] + Containers(old'.captures + new'.captures + paired))
  }

  lemma CaptureOrder(ctx: Context, check: Check, c: Capture, role: StageRole, inputs: seq<string>, earliest: nat)
    requires CaptureOk(ctx, check, c, role, inputs, earliest)
    ensures StartsAfter(c, earliest) && forall q | q in c.probes :: q.finished <= c.process.started
  {
    hide ProcessOk, NoDups, ContainersOf;
    forall q | q in c.probes ensures earliest <= q.started && q.finished <= c.process.started {
      var i :| 0 <= i < |c.probes| && c.probes[i] == q;
      assert ProbeOk(ctx, check.probes[i], c.probes[i], role, inputs, earliest, c.process.started);
    }
  }

  /** In a valid run every capture belongs to a role check, and is timed as its phase demands. */
  lemma RunOrder(ctx: Context, run: Run, c: Capture)
    requires RunValid(ctx, run) && c in run.captures
    ensures forall q | q in c.probes :: q.finished <= c.process.started
    ensures IsPost(ctx, c) ==> run.executor.finished <= run.snapshot && StartsAfter(c, run.snapshot)
  {
    hide CaptureOk, ProcessOk, NoDups;
    assert c.id in RoleCheckIds(ctx);
    var check :| check in ctx.checks && !check.phase.Paired? && check.id == c.id;
    assert TraceOk(ctx, run, check, c);
    CaptureOrder(ctx, check, c, run.role, Inputs(ctx, run, check), if check.phase.Pre? then 0 else run.snapshot);
    if IsPost(ctx, c) {
      var post :| post in ctx.checks && post.phase.Post? && post.id == c.id;
      assert TraceOk(ctx, run, post, c);
      CaptureOrder(ctx, post, c, run.role, Inputs(ctx, run, post), run.snapshot);
    }
  }

  /**
   A pair is accepted only if all pre-checks of both roles finished before either executor
   started, every post-check and its probes started after that role's snapshot, every pair
   check and its probes started after every role check of both runs, every probe finished
   before its check started, and all containers are distinct.
   */
  lemma AcceptedMeansOrdered(ctx: Context, old': Run, new': Run, paired: seq<Capture>, oldRecord: string,
                             newRecord: string)
    requires Accepted(ctx, old', new', paired, oldRecord, newRecord)
    ensures Timeline(ctx, old', new', paired)
  {
    hide CaptureOk, RunValid, NoDups, Containers, InPhase, Membership, StartsAfter, Accepted, IsPre, IsPost;
    AcceptedParts(ctx, old', new', paired, oldRecord, newRecord);
    forall run, c | (run == old' || run == new') && c in run.captures
      ensures forall q | q in c.probes :: q.finished <= c.process.started
      ensures IsPost(ctx, c) ==> run.executor.finished <= run.snapshot && StartsAfter(c, run.snapshot)
      ensures IsPre(ctx, c) ==>
                c.process.finished <= old'.executor.started && c.process.finished <= new'.executor.started
    {
      RunOrder(ctx, run, c);
      PreOrder(ctx, old', new', paired, oldRecord, newRecord, c);
    }
    forall run, c, p | (run == old' || run == new') && c in run.captures && p in paired
      ensures StartsAfter(p, c.process.finished)
    {
      assert c in old'.captures + new'.captures;
      PairOrder(ctx, old', new', paired, oldRecord, newRecord, p);
      Earlier(p, c.process.finished, Latest(old'.captures + new'.captures));
    }
  }

  lemma AcceptedParts(ctx: Context, old': Run, new': Run, paired: seq<Capture>, oldRecord: string, newRecord: string)
    requires Accepted(ctx, old', new', paired, oldRecord, newRecord)
    ensures RunValid(ctx, old') && RunValid(ctx, new')
    ensures NoDups([old'.executor.container, new'.executor.container]
                   + Containers(old'.captures + new'.captures + paired))
  {
  }

  lemma PreOrder(ctx: Context, old': Run, new': Run, paired: seq<Capture>, oldRecord: string, newRecord: string,
                 c: Capture)
    requires Accepted(ctx, old', new', paired, oldRecord, newRecord) && (c in old'.captures || c in new'.captures)
    ensures IsPre(ctx, c) ==> c.process.finished <= old'.executor.started && c.process.finished <= new'.executor.started
  {
    hide CaptureOk, RunValid, NoDups, Containers, InPhase, Membership;
    assert c in old'.captures + new'.captures;
  }

  lemma Earlier(c: Capture, a: nat, b: nat)
    requires a <= b && StartsAfter(c, b)
    ensures StartsAfter(c, a)
  {
  }

  lemma PairOrder(ctx: Context, old': Run, new': Run, paired: seq<Capture>, oldRecord: string, newRecord: string,
                  p: Capture)
    requires Accepted(ctx, old', new', paired, oldRecord, newRecord) && p in paired
    ensures StartsAfter(p, Latest(old'.captures + new'.captures))
  {
    hide CaptureOk, RunValid, NoDups, Containers, InPhase, Membership;
    var i :| 0 <= i < |paired| && paired[i] == p;
    var check := InPhase(ctx.checks, Paired)[i];
    var inputs := PairInputs(ctx, old', new', oldRecord, newRecord);
    assert PairTraceOk(ctx, check, p, inputs, Latest(old'.captures + new'.captures));
    CaptureOrder(ctx, check, p, Both, inputs, Latest(old'.captures + new'.captures));
  }
}
