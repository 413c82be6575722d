/**
 A whole attempt: one runner goes through all repetitions, keeping its blockers and its
 uncertainty from one pair to the next, and the reports of the pairs are judged together.
 */
module TwinAttempt {
  import opened Common
  import opened TwinEvaluation
  import opened TwinLog
  import opened TwinRunner
  import opened TwinDoubt

  function At(ctx: Context, index: nat): Context {
    ctx.(repetition := index)
  }

  // ------------------------------------------------------------------------ the repetitions

  /**
   Where a runner stands between two pairs: how many stages it ran, whether anything blocks it,
   whether it is uncertain.
   */
  datatype Mark = Mark(stage: nat, blocked: bool, uncertain: bool)
  {
    predicate Clear() {
      !blocked && !uncertain
    }
  }

  /** Every executor between the marks was started on a clear runner, after all pre checks had held. */
  ghost predicate Guarded(ctx: Context, log: Log, from: Mark, to: Mark) {
    forall k | from.stage <= k < to.stage && k < |log| && log[k].what.Executing? ::
      !from.blocked && OldExecutor(ctx, from.stage) <= k && Cleared(ctx, log, from.stage)
  }

  predicate Heard(log: Log, lo: nat, hi: nat) {
    exists k :: lo <= k < hi && k < |log| && log[k].outcome.Ran? && log[k].outcome.blockers != []
  }

  /** The marks account for what the stages between them left behind and raised, and the runner heeded it. */
  ghost predicate Tracked(ctx: Context, log: Log, from: Mark, to: Mark) {
    && to.uncertain == (from.uncertain || Doubt(log, from.stage, to.stage))
    && (Heard(log, from.stage, to.stage) ==> to.blocked)
    && Careful(log, from.stage, to.stage, from.uncertain)
    && OpensQuietly(log, from.stage, to.stage, OldExecutor(ctx, from.stage))
  }

  lemma JustTracked(ctx: Context, log: Log, from: Mark, to: Mark, blockers: seq<string>)
    requires to.stage == |log| && to.blocked == (blockers != [])
    requires Prudent(log, from.stage, OldExecutor(ctx, from.stage), from.uncertain, to.uncertain, blockers)
    ensures Tracked(ctx, log, from, to)
  {
    hide Careful, OpensQuietly, OldExecutor, Doubt;
    if Heard(log, from.stage, to.stage) {
      var k :| from.stage <= k < |log| && log[k].outcome.Ran? && log[k].outcome.blockers != [];
      var b := log[k].outcome.blockers[0];
      assert Raises(log[k].outcome, b);
      assert b in blockers;
    }
  }

  lemma TrackedKept(ctx: Context, before: Log, after: Log, from: Mark, to: Mark)
    requires before <= after && to.stage <= |before| && Tracked(ctx, before, from, to)
    ensures Tracked(ctx, after, from, to)
  {
    hide Careful, OldExecutor, Doubt, Quiet;
    SameStages(before, after);
    DoubtKept(before, after, from.stage, to.stage);
    CarefulKept(before, after, from.stage, to.stage, from.uncertain);
    forall i | from.stage <= i < to.stage && after[i].what.Executing?
      ensures Quiet(after, from.stage, OldExecutor(ctx, from.stage))
              && (after[i].subject.role.Old? ==> i == OldExecutor(ctx, from.stage)) && !after[i].subject.role.Both?
    {
      assert before[i].what.Executing?;
      QuietKept(before, after, from.stage, OldExecutor(ctx, from.stage));
    }
  }

  /** What is known of one pair, whatever its stages did. */
  ghost predicate PairDone(ctx: Context, log: Log, from: Mark, to: Mark, r: PairRecord, oldRecord: string,
                           newRecord: string) {
    && from.stage <= to.stage <= |log|
    && (from.blocked ==> to.blocked)
    && Guarded(ctx, log, from, to)
    && Tracked(ctx, log, from, to)
    && Accepts(ctx, log, from.stage, to.stage, from.Clear(), r, oldRecord, newRecord)
    && (Healthy(ctx, log, from.stage, to.stage) && ContextOk(ctx) && from.Clear() ==> to.Clear())
  }

  lemma HealthyKept(ctx: Context, before: Log, after: Log, lo: nat, hi: nat)
    requires before <= after && hi <= |before|
    ensures Healthy(ctx, before, lo, hi) <==> Healthy(ctx, after, lo, hi)
  {
    hide StageOk, ProcessAt, EndAt;
    assert before == after[..|before|];
    forall i: nat | i < hi
      ensures after[i] == before[i] && ProcessAt(after, i) == ProcessAt(before, i)
              && EndAt(after, i) == EndAt(before, i)
    {
      StageKept(before, after, i);
    }
  }

  lemma StageKept(before: Log, after: Log, i: nat)
    requires before <= after && i < |before|
    ensures after[i] == before[i] && ProcessAt(after, i) == ProcessAt(before, i) && EndAt(after, i) == EndAt(before, i)
  {
    assert before == after[..|before|];
  }

  /** Later stages do not change what is known of a pair. */
  lemma PairKept(ctx: Context, before: Log, after: Log, from: Mark, to: Mark, r: PairRecord, oldRecord: string,
                 newRecord: string)
    requires before <= after && PairDone(ctx, before, from, to, r, oldRecord, newRecord)
    ensures PairDone(ctx, after, from, to, r, oldRecord, newRecord)
  {
    hide Healthy, Cleared, OldExecutor, Accepted, ContextOk, HasPairCheck, Tracked;
    HealthyKept(ctx, before, after, from.stage, to.stage);
    TrackedKept(ctx, before, after, from, to);
    assert before == after[..|before|];
    forall k | from.stage <= k < to.stage && after[k].what.Executing?
      ensures !from.blocked && OldExecutor(ctx, from.stage) <= k && Cleared(ctx, after, from.stage)
    {
      assert after[k] == before[k];
      ClearedKept(ctx, before, after, from.stage);
    }
  }

  /** The pairs of an attempt with the marks before, between and after them. */
  ghost predicate PairsDone(ctx: Context, log: Log, marks: seq<Mark>, pairs: seq<PairRecord>,
                            recordId: PartialRun -> string) {
    && |marks| == |pairs| + 1
    && (forall i: nat | i < |pairs| ::
          PairDone(At(ctx, i), log, marks[i], marks[i + 1], pairs[i], recordId(pairs[i].old'), recordId(pairs[i].new')))
    && (forall i | 0 < i < |pairs| :: !marks[i].uncertain)
  }

  /**
   Runs the repetitions one after the other and stops when a pair leaves the runner uncertain.
   Every executor of every pair was started on a runner without blockers after all pre checks of
   that pair had held; so once a pair leaves a blocker, no later one starts an executor.
   */
  method RunRepetitions(runner: PairRunner, recordId: PartialRun -> string)
    returns (pairs: seq<PairRecord>, ghost marks: seq<Mark>)
    modifies runner
    ensures old(runner.stages) <= runner.stages && Recorded(runner.runtime, runner.stages, old(|runner.stages|))
    ensures PairsDone(runner.ctx, runner.stages, marks, pairs, recordId)
    ensures marks[0] == Mark(old(|runner.stages|), old(runner.blockers) != [], old(runner.uncertain))
    ensures marks[|pairs|] == Mark(|runner.stages|, runner.blockers != [], runner.uncertain)
    ensures |pairs| <= runner.ctx.repetitions
    ensures |pairs| < runner.ctx.repetitions ==> runner.uncertain
  {
    hide PairDone, Recorded, Tracked, Prudent;
    pairs := [];
    marks := [Mark(|runner.stages|, runner.blockers != [], runner.uncertain)];
    NothingAdded(runner.runtime, runner.stages, Both);
    for index := 0 to runner.ctx.repetitions
      invariant old(runner.stages) <= runner.stages && Recorded(runner.runtime, runner.stages, old(|runner.stages|))
      invariant |pairs| == index && PairsDone(runner.ctx, runner.stages, marks, pairs, recordId)
      invariant marks[0] == Mark(old(|runner.stages|), old(runner.blockers) != [], old(runner.uncertain))
      invariant marks[index] == Mark(|runner.stages|, runner.blockers != [], runner.uncertain)
      invariant index > 0 ==> !runner.uncertain
    {
      ghost var before, from := runner.stages, marks[index];
      var r := runner.Pair(index, recordId);
      ghost var to := Mark(|runner.stages|, runner.blockers != [], runner.uncertain);
      RecordedOn(runner.runtime, before, runner.stages, old(|runner.stages|));
      JustTracked(At(runner.ctx, index), runner.stages, from, to, runner.blockers);
      JustDone(At(runner.ctx, index), runner.stages, from, to, r, recordId(r.old'), recordId(r.new'));
      PairsKept(runner.ctx, before, runner.stages, marks, pairs, recordId);
      pairs, marks := pairs + [r], marks + [to];
      if runner.uncertain {
        break;
      }
    }
  }

  lemma JustDone(ctx: Context, log: Log, from: Mark, to: Mark, r: PairRecord, oldRecord: string, newRecord: string)
    requires from.stage <= to.stage == |log| && (from.blocked ==> to.blocked)
    requires forall k | from.stage <= k < |log| && log[k].what.Executing? ::
               OldExecutor(ctx, from.stage) <= k && Cleared(ctx, log, from.stage) && !from.blocked
    requires Tracked(ctx, log, from, to)
    requires Accepts(ctx, log, from.stage, |log|, from.Clear(), r, oldRecord, newRecord)
    requires Healthy(ctx, log, from.stage, |log|) && ContextOk(ctx) && !from.blocked ==> from.uncertain || to.Clear()
    ensures PairDone(ctx, log, from, to, r, oldRecord, newRecord)
  {
    hide Healthy, Cleared, OldExecutor, Accepts, ContextOk, Tracked;
  }

  lemma PairsKept(ctx: Context, before: Log, after: Log, marks: seq<Mark>, pairs: seq<PairRecord>,
                  recordId: PartialRun -> string)
    requires before <= after && PairsDone(ctx, before, marks, pairs, recordId)
    ensures PairsDone(ctx, after, marks, pairs, recordId)
  {
    hide PairDone;
    forall i: nat | i < |pairs|
      ensures PairDone(At(ctx, i), after, marks[i], marks[i + 1], pairs[i], recordId(pairs[i].old'),
                       recordId(pairs[i].new'))
    {
      PairKept(At(ctx, i), before, after, marks[i], marks[i + 1], pairs[i], recordId(pairs[i].old'),
               recordId(pairs[i].new'));
    }
  }

  /** Once something blocks the runner, no later pair starts an executor. */
  lemma {:induction false} BlockedStaysBlocked(ctx: Context, log: Log, marks: seq<Mark>, pairs: seq<PairRecord>,
                                               recordId: PartialRun -> string, i: nat, j: nat)
    requires PairsDone(ctx, log, marks, pairs, recordId) && i <= j < |pairs| && marks[i].blocked
    ensures marks[j].blocked
    ensures forall k | marks[j].stage <= k < marks[j + 1].stage && k < |log| :: !log[k].what.Executing?
    decreases j - i
  {
    hide Healthy, Accepts, Cleared, ContextOk, OldExecutor, Tracked;
    assert PairDone(At(ctx, i), log, marks[i], marks[i + 1], pairs[i], recordId(pairs[i].old'),
                    recordId(pairs[i].new'));
    if i == j {
    } else {
      BlockedStaysBlocked(ctx, log, marks, pairs, recordId, i + 1, j);
    }
  }

  /** A pair that heard of a blocker is the last one to have started an executor. */
  lemma HeardStopsExecutors(ctx: Context, log: Log, marks: seq<Mark>, pairs: seq<PairRecord>,
                            recordId: PartialRun -> string, i: nat, j: nat)
    requires PairsDone(ctx, log, marks, pairs, recordId) && i < j < |pairs|
    requires Heard(log, marks[i].stage, marks[i + 1].stage)
    ensures forall k | marks[j].stage <= k < marks[j + 1].stage && k < |log| :: !log[k].what.Executing?
  {
    hide Healthy, Accepts, Guarded, ContextOk, Careful, OpensQuietly, Doubt, Heard;
    assert PairDone(At(ctx, i), log, marks[i], marks[i + 1], pairs[i], recordId(pairs[i].old'),
                    recordId(pairs[i].new'));
    BlockedStaysBlocked(ctx, log, marks, pairs, recordId, i + 1, j);
  }

  /** A pair that left anything behind is the last one. */
  lemma DoubtEndsAttempt(ctx: Context, log: Log, marks: seq<Mark>, pairs: seq<PairRecord>,
                         recordId: PartialRun -> string, i: nat)
    requires PairsDone(ctx, log, marks, pairs, recordId) && i < |pairs|
    requires Doubt(log, marks[i].stage, marks[i + 1].stage)
    ensures i + 1 == |pairs| && marks[|pairs|].uncertain
  {
    hide Healthy, Accepts, Guarded, ContextOk, Careful, OpensQuietly, Doubt, Heard;
    assert PairDone(At(ctx, i), log, marks[i], marks[i + 1], pairs[i], recordId(pairs[i].old'),
                    recordId(pairs[i].new'));
  }

  lemma {:induction false} CertainSoFar(ctx: Context, log: Log, marks: seq<Mark>, pairs: seq<PairRecord>,
                                        recordId: PartialRun -> string, i: nat)
    requires PairsDone(ctx, log, marks, pairs, recordId) && i < |pairs| && !marks[0].uncertain
    ensures marks[0].stage <= marks[i].stage && !marks[i].uncertain && !Doubt(log, marks[0].stage, marks[i].stage)
    decreases i
  {
    hide Healthy, Accepts, Guarded, ContextOk, Careful, OpensQuietly, Heard;
    if i > 0 {
      CertainSoFar(ctx, log, marks, pairs, recordId, i - 1);
      assert PairDone(At(ctx, i - 1), log, marks[i - 1], marks[i], pairs[i - 1], recordId(pairs[i - 1].old'),
                      recordId(pairs[i - 1].new'));
      DoubtParts(log, marks[0].stage, marks[i - 1].stage, marks[i].stage);
    }
  }

  /**
   With a runtime that reports whatever it leaves behind as a blocker too, no executor of any pair
   is started once any stage of the attempt left anything behind.
   */
  lemma ExecutorsNeverInDoubt(ctx: Context, log: Log, marks: seq<Mark>, pairs: seq<PairRecord>,
                              recordId: PartialRun -> string, i: nat, k: nat)
    requires PairsDone(ctx, log, marks, pairs, recordId) && i < |pairs| && !marks[0].uncertain
    requires marks[i].stage <= k < marks[i + 1].stage && k < |log| && log[k].what.Executing?
    requires forall j | 0 <= j < |log| && log[j].outcome.Ran? && LeavesDoubt(log[j].outcome) ::
               log[j].outcome.blockers != []
    ensures forall j | marks[0].stage <= j < k :: !LeavesDoubt(log[j].outcome)
  {
    hide Healthy, Accepts, Guarded, ContextOk, Heard;
    CertainSoFar(ctx, log, marks, pairs, recordId, i);
    assert PairDone(At(ctx, i), log, marks[i], marks[i + 1], pairs[i], recordId(pairs[i].old'),
                    recordId(pairs[i].new'));
    NoExecutorInDoubt(log, marks[i].stage, marks[i + 1].stage, OldExecutor(At(ctx, i), marks[i].stage), false, k);
    DoubtParts(log, marks[0].stage, marks[i].stage, k);
  }

  /** The stages of each pair went well. */
  ghost predicate AllHealthy(ctx: Context, log: Log, marks: seq<Mark>) {
    forall i: nat | i + 1 < |marks| :: Healthy(At(ctx, i), log, marks[i].stage, marks[i + 1].stage)
  }

  lemma {:induction false} StaysClear(ctx: Context, log: Log, marks: seq<Mark>, pairs: seq<PairRecord>,
                                      recordId: PartialRun -> string, i: nat)
    requires PairsDone(ctx, log, marks, pairs, recordId) && AllHealthy(ctx, log, marks) && marks[0].Clear()
    requires ContextOk(ctx) && i <= |pairs| <= ctx.repetitions
    ensures marks[i].Clear()
    decreases i
  {
    hide Healthy, Accepts, Guarded, ProfileOk, Tracked;
    if i == 0 {
    } else {
      StaysClear(ctx, log, marks, pairs, recordId, i - 1);
      assert PairDone(At(ctx, i - 1), log, marks[i - 1], marks[i], pairs[i - 1],
                      recordId(pairs[i - 1].old'), recordId(pairs[i - 1].new'));
    }
  }

  /**
   If the stages of every pair went well, each pair is complete, and accepted exactly when the
   profile has a pair check.
   */
  lemma EveryPairAccepted(ctx: Context, log: Log, marks: seq<Mark>, pairs: seq<PairRecord>,
                          recordId: PartialRun -> string, i: nat)
    requires PairsDone(ctx, log, marks, pairs, recordId) && AllHealthy(ctx, log, marks) && marks[0].Clear()
    requires ContextOk(ctx) && i < |pairs| <= ctx.repetitions
    ensures pairs[i].old'.Complete() && pairs[i].new'.Complete()
    ensures Accepted(At(ctx, i), pairs[i].old'.Completed(), pairs[i].new'.Completed(), pairs[i].paired,
                     recordId(pairs[i].old'), recordId(pairs[i].new'))
       <==> HasPairCheck(ctx)
  {
    hide Healthy, Guarded, ProfileOk, Accepted, Tracked;
    StaysClear(ctx, log, marks, pairs, recordId, i);
    assert PairDone(At(ctx, i), log, marks[i], marks[i + 1], pairs[i], recordId(pairs[i].old'),
                    recordId(pairs[i].new'));
  }

  // -------------------------------------------------------------------------- the judgement

  datatype Trace = Trace(id: string, role: CheckRole, observation: Option<bool>, expected: bool, valid: bool)

  /** What two reports of a pair must agree on. */
  datatype Fingerprint = Fingerprint(valid: bool, blockers: seq<string>, old': seq<Trace>, new': seq<Trace>,
                                     paired: seq<Trace>)

  datatype Report = Report(repetition: nat, fingerprint: Fingerprint)

  function RoleChecks(checks: seq<Check>): (cs: seq<Check>)
    ensures forall c | c in cs :: c in checks && !c.phase.Paired?
    decreases |checks|
  {
    if checks == [] then []
    else
      var last := checks[|checks| - 1];
      RoleChecks(checks[..|checks| - 1]) + (if last.phase.Paired? then [] else [last])
  }

  /** The capture recorded for a check; the last one if there are several. */
  function CaptureFor(captures: seq<Capture>, id: string): (c: Option<Capture>)
    ensures c.Some? ==> c.value in captures && c.value.id == id
    ensures c.None? ==> forall d | d in captures :: d.id != id
    decreases |captures|
  {
    if captures == [] then None
    else
      var last := captures[|captures| - 1];
      assert captures == captures[..|captures| - 1] + [last];
      if last.id == id then Some(last) else CaptureFor(captures[..|captures| - 1], id)
  }

  /** The trace of a role check: valid if it was captured properly and in time and said something. */
  function RoleTrace(ctx: Context, run: Run, check: Check): Trace {
    var expected := check.Expected(run.role);
    match CaptureFor(run.captures, check.id)
    case None => Trace(check.id, check.role, None, expected, false)
    case Some(c) =>
      var said := ctx.observe(c.process.stdout, check.id);
      if Captured(ctx, run, check, c) && said.Some? then Trace(check.id, check.role, said, expected, true)
      else Trace(check.id, check.role, None, expected, false)
  }

  predicate Captured(ctx: Context, run: Run, check: Check, c: Capture) {
    && CaptureOk(ctx, check, c, run.role, Inputs(ctx, run, check), if check.phase.Pre? then 0 else run.snapshot)
    && (check.phase.Pre? ==> c.process.finished <= run.executor.started)
    && (check.phase.Post? ==> run.snapshot <= c.process.started)
  }

  function RunTraces(ctx: Context, run: Run): seq<Trace> {
    var checks := RoleChecks(ctx.checks);
    seq(|checks|, i requires 0 <= i < |checks| => RoleTrace(ctx, run, checks[i]))
  }

  function PairTraces(ctx: Context, paired: seq<Capture>): seq<Trace> {
    var checks := InPhase(ctx.checks, Paired);
    seq(|checks|, i requires 0 <= i < |checks| =>
      Trace(checks[i].id, checks[i].role,
            if i < |paired| then ctx.observe(paired[i].process.stdout, checks[i].id) else None, true, true))
  }

  /** The report of an accepted pair. */
  function AcceptedReport(ctx: Context, old': Run, new': Run, paired: seq<Capture>): Report {
    Report(ctx.repetition, Fingerprint(true, [], RunTraces(ctx, old'), RunTraces(ctx, new'), PairTraces(ctx, paired)))
  }

  function ExpectedTraces(checks: seq<Check>, role: StageRole): seq<Trace> {
    seq(|checks|, i requires 0 <= i < |checks| =>
      Trace(checks[i].id, checks[i].role, Some(checks[i].Expected(role)), checks[i].Expected(role), true))
  }

  lemma ValidTraces(ctx: Context, run: Run)
    requires RunValid(ctx, run)
    ensures RunTraces(ctx, run) == ExpectedTraces(RoleChecks(ctx.checks), run.role)
  {
    hide CaptureOk, RoleChecks, NoDups, ProcessOk;
    var checks := RoleChecks(ctx.checks);
    forall i | 0 <= i < |checks|
      ensures RoleTrace(ctx, run, checks[i]) == ExpectedTraces(checks, run.role)[i]
    {
      var check := checks[i];
      assert check in checks;
      assert check.id in RoleCheckIds(ctx);
      var c := CaptureFor(run.captures, check.id);
      assert c.Some?;
      assert TraceOk(ctx, run, check, c.value);
    }
  }

  /** All accepted pairs of one profile leave the same fingerprint, whatever the repetition. */
  lemma AcceptedFingerprint(ctx: Context, old': Run, new': Run, paired: seq<Capture>, oldRecord: string,
                            newRecord: string)
    requires Accepted(ctx, old', new', paired, oldRecord, newRecord)
    ensures AcceptedReport(ctx, old', new', paired).fingerprint
         == Fingerprint(true, [], ExpectedTraces(RoleChecks(ctx.checks), Old),
                        ExpectedTraces(RoleChecks(ctx.checks), New),
                        ExpectedTraces(InPhase(ctx.checks, Paired), Both))
  {
    hide CaptureOk, RoleChecks, InPhase, RunValid, NoDups, Containers, Membership, Latest, PreCaptures, RunTraces;
    ValidTraces(ctx, old');
    ValidTraces(ctx, new');
    var checks := InPhase(ctx.checks, Paired);
    forall i | 0 <= i < |checks| ensures PairTraces(ctx, paired)[i] == ExpectedTraces(checks, Both)[i] {
      assert PairTraceOk(ctx, checks[i], paired[i], PairInputs(ctx, old', new', oldRecord, newRecord),
                         Latest(old'.captures + new'.captures));
    }
  }

  const INVALID_GROUP := "INVALID_REPEAT_GROUP"
  const FAILED := "REPETITION_FAILED"
  const UNSTABLE := "UNSTABLE_TWIN_RUN"

  function Indices(reports: seq<Report>): set<nat> {
    set r | r in reports :: r.repetition
  }

  /** The reports are one for each repetition. */
  predicate EachOnce(reports: seq<Report>, repetitions: nat) {
    |reports| == repetitions && forall i: nat | i < repetitions :: i in Indices(reports)
  }

  predicate AllValid(reports: seq<Report>) {
    forall r | r in reports :: r.fingerprint.valid
  }

  predicate AllAgree(reports: seq<Report>) {
    reports != [] && forall r | r in reports :: r.fingerprint == reports[0].fingerprint
  }

  /** Judges the reports of all repetitions together. */
  method EvaluateRepetitions(reports: seq<Report>, repetitions: nat) returns (blockers: seq<string>)
    ensures blockers == [] <==> EachOnce(reports, repetitions) && AllValid(reports) && AllAgree(reports)
    ensures FAILED in blockers <==> EachOnce(reports, repetitions) && !AllValid(reports)
    ensures UNSTABLE in blockers <==> EachOnce(reports, repetitions) && !AllAgree(reports)
  {
    assert INVALID_GROUP[0] != FAILED[0] && INVALID_GROUP[0] != UNSTABLE[0] && FAILED[0] != UNSTABLE[0];
    if !EachOnce(reports, repetitions) {
      return [INVALID_GROUP];
    }
    blockers := [];
    if !AllValid(reports) {
      blockers := blockers + [FAILED];
    }
    var fingerprints := set r | r in reports :: r.fingerprint;
    OneFingerprint(reports, fingerprints);
    if |fingerprints| != 1 {
      blockers := blockers + [UNSTABLE];
    }
  }

  lemma OneFingerprint(reports: seq<Report>, fingerprints: set<Fingerprint>)
    requires fingerprints == set r | r in reports :: r.fingerprint
    ensures |fingerprints| == 1 <==> AllAgree(reports)
  {
    if reports != [] {
      var f := reports[0].fingerprint;
      assert reports[0] in reports && f in fingerprints;
      if AllAgree(reports) {
        assert fingerprints == {f};
      }
      if |fingerprints| == 1 {
        assert |fingerprints - {f}| == 0;
        assert forall r | r in reports :: r.fingerprint in fingerprints;
      }
    }
  }

  ghost predicate AllComplete(pairs: seq<PairRecord>) {
    forall i | 0 <= i < |pairs| :: pairs[i].old'.Complete() && pairs[i].new'.Complete()
  }

  /** The reports of pairs that were all accepted. */
  ghost function Reports(ctx: Context, pairs: seq<PairRecord>): seq<Report>
    requires AllComplete(pairs)
  {
    seq(|pairs|, i requires 0 <= i < |pairs| =>
      AcceptedReport(At(ctx, i), pairs[i].old'.Completed(), pairs[i].new'.Completed(), pairs[i].paired))
  }

  ghost predicate AllAccepted(ctx: Context, pairs: seq<PairRecord>, recordId: PartialRun -> string) {
    && AllComplete(pairs)
    && forall i: nat | i < |pairs| ::
         Accepted(At(ctx, i), pairs[i].old'.Completed(), pairs[i].new'.Completed(), pairs[i].paired,
                  recordId(pairs[i].old'), recordId(pairs[i].new'))
  }

  /** If every repetition is accepted the attempt is valid: accepted pairs are never found unstable. */
  lemma AcceptedNeverUnstable(ctx: Context, pairs: seq<PairRecord>, recordId: PartialRun -> string)
    requires AllAccepted(ctx, pairs, recordId) && |pairs| == ctx.repetitions > 0
    ensures var reports := Reports(ctx, pairs);
            EachOnce(reports, ctx.repetitions) && AllValid(reports) && AllAgree(reports)
  {
    hide Accepted, RunTraces, PairTraces, ExpectedTraces, RoleChecks, InPhase;
    var reports := Reports(ctx, pairs);
    forall i: nat | i < |pairs|
      ensures reports[i].repetition == i && reports[i].fingerprint.valid
      ensures reports[i].fingerprint == reports[0].fingerprint
    {
      FingerprintAt(ctx, pairs, recordId, i);
      FingerprintAt(ctx, pairs, recordId, 0);
    }
    forall i: nat | i < ctx.repetitions ensures i in Indices(reports) {
      assert reports[i] in reports;
    }
  }

  lemma FingerprintAt(ctx: Context, pairs: seq<PairRecord>, recordId: PartialRun -> string, i: nat)
    requires AllAccepted(ctx, pairs, recordId) && i < |pairs|
    ensures Reports(ctx, pairs)[i].repetition == i
    ensures Reports(ctx, pairs)[i].fingerprint
         == Fingerprint(true, [], ExpectedTraces(RoleChecks(ctx.checks), Old),
                        ExpectedTraces(RoleChecks(ctx.checks), New),
                        ExpectedTraces(InPhase(ctx.checks, Paired), Both))
  {
    hide Accepted, RunTraces, PairTraces, ExpectedTraces, RoleChecks, InPhase;
    AcceptedFingerprint(At(ctx, i), pairs[i].old'.Completed(), pairs[i].new'.Completed(), pairs[i].paired,
                        recordId(pairs[i].old'), recordId(pairs[i].new'));
  }

  /**
   An attempt whose stages all went well runs every repetition and is valid as a whole, given that
   the profile has a pair check.
   */
  lemma HealthyAttemptValid(ctx: Context, log: Log, marks: seq<Mark>, pairs: seq<PairRecord>,
                            recordId: PartialRun -> string)
    requires PairsDone(ctx, log, marks, pairs, recordId) && AllHealthy(ctx, log, marks) && marks[0].Clear()
    requires ContextOk(ctx) && HasPairCheck(ctx)
    requires |pairs| <= ctx.repetitions && (|pairs| < ctx.repetitions ==> marks[|pairs|].uncertain)
    ensures |pairs| == ctx.repetitions && marks[|pairs|].Clear() && AllAccepted(ctx, pairs, recordId)
    ensures var reports := Reports(ctx, pairs);
            EachOnce(reports, ctx.repetitions) && AllValid(reports) && AllAgree(reports)
  {
    hide PairDone, Healthy, ProfileOk, Accepted, HasPairCheck, AllValid, AllAgree, EachOnce, Reports;
    StaysClear(ctx, log, marks, pairs, recordId, |pairs|);
    forall i: nat | i < |pairs|
      ensures pairs[i].old'.Complete() && pairs[i].new'.Complete()
      ensures Accepted(At(ctx, i), pairs[i].old'.Completed(), pairs[i].new'.Completed(), pairs[i].paired,
                       recordId(pairs[i].old'), recordId(pairs[i].new'))
    {
      EveryPairAccepted(ctx, log, marks, pairs, recordId, i);
    }
    AcceptedNeverUnstable(ctx, pairs, recordId);
  }
}
