/**
 The producer of twin-run evidence: it runs the stages of one repetition in order and records
 what each stage did, stopping a role or the pair when a stage goes wrong.

 The container runtime is a function of the stage's number, invocation and subject, so any
 behaviour of it is covered.
 */
module TwinRunner {
  import opened Common
  import opened TwinEvaluation
  import opened TwinLog
  import opened TwinProof
  import opened TwinDoubt

  type Runtime = (nat, Invocation, Subject) -> Outcome

  /** The stages from lo on have the outcomes the runtime gave them. */
  predicate Recorded(runtime: Runtime, log: Log, lo: nat) {
    forall i | lo <= i < |log| :: log[i].outcome == runtime(i, log[i].what, log[i].subject)
  }

  /** The stages from lo on are checks and probes of the role. */
  predicate OnlyChecks(log: Log, lo: nat, role: StageRole) {
    forall i | lo <= i < |log| :: !log[i].what.Executing? && log[i].subject.role == role
  }

  class PairRunner {
    const ctx: Context
    const runtime: Runtime
    var stages: Log
    var blockers: seq<string>
    var uncertain: bool

    constructor (ctx: Context, runtime: Runtime)
      ensures this.ctx == ctx && this.runtime == runtime
      ensures stages == [] && blockers == [] && !uncertain
    {
      this.ctx, this.runtime := ctx, runtime;
      stages, blockers, uncertain := [], [], false;
    }

    /** The context of one repetition. */
    function For(index: nat): Context {
      ctx.(repetition := index)
    }

    /** Runs one stage and records it, whether or not it could run. */
    method Stage(what: Invocation, s: Subject) returns (r: Option<Outcome>)
      modifies this
      ensures var o := runtime(old(|stages|), what, s);
              && stages == old(stages) + [StageRecord(what, s, o)]
              && (if o.Ran? then r == Some(o) else r == None)
              && blockers == old(blockers) + (if o.Ran? then o.blockers else [])
              && uncertain == (old(uncertain) || o.retained || (o.Ran? && !o.process.terminated))
      ensures Tallied(stages, old(|stages|), old(uncertain), uncertain, blockers)
    {
      var o := runtime(|stages|, what, s);
      TallyStage(stages, what, s, o, uncertain, blockers);
      stages := stages + [StageRecord(what, s, o)];
      if o.Unavailable? {
        uncertain := uncertain || o.retained;
        assert blockers + [] == blockers;
        return None;
      }
      uncertain := uncertain || !o.process.terminated || o.retained;
      blockers := blockers + o.blockers;
      return Some(o);
    }

    /** Runs the probes of a check and then the check over their observations. */
    method RunCheck(index: nat, check: Check, on: Setting) returns (r: Option<Capture>)
      modifies this
      ensures old(stages) <= stages && Recorded(runtime, stages, old(|stages|))
      ensures OnlyChecks(stages, old(|stages|), on.role) && old(blockers) <= blockers
      ensures r.Some? ==> |stages| == old(|stages|) + Width(check)
      ensures r.Some? ==> CheckRun(For(index), stages, old(|stages|), check, on)
      ensures r.Some? ==> r.value == CaptureAt(stages, old(|stages|), check)
      ensures Tallied(stages, old(|stages|), old(uncertain), uncertain, blockers)
      ensures r.Some? ==> AllRan(stages, old(|stages|))
      ensures Clean(For(index), stages, old(|stages|), |stages|) && Supplied(check, on.trees) ==>
                r.Some? && blockers == old(blockers) && uncertain == old(uncertain)
    {
      hide Clean, Probed, ProbesAt, CheckRun, CaptureAt, Recorded, OnlyChecks, Tallied, AllRan;
      ghost var base := |stages|;
      ghost var c := For(index);
      var probes: seq<Process> := [];
      NothingProbed(c, runtime, stages, base, check, on);
      TallyNone(stages, uncertain, blockers);
      for i := 0 to |check.probes|
        invariant |stages| == base + i && old(stages) <= stages && old(blockers) <= blockers
        invariant Recorded(runtime, stages, base) && OnlyChecks(stages, base, on.role)
        invariant Probed(c, stages, base, check, i, on) && probes == ProbesAt(stages, base, i)
        invariant Tallied(stages, base, old(uncertain), uncertain, blockers) && AllRan(stages, base)
        invariant Clean(c, stages, base, |stages|) ==> blockers == old(blockers) && uncertain == old(uncertain)
      {
        var probe := check.probes[i];
        if probe.input !in on.trees {
          return None;
        }
        ghost var before, was, had := stages, uncertain, blockers;
        var o := Stage(Probing(probe), ProbeSubject(For(index), on.role, probe, on.trees));
        StageAdded(c, runtime, before, stages, base, on.role);
        StageRan(before, stages);
        TallyJoined(before, stages, base, old(uncertain), was, uncertain, had, blockers);
        ProbeAdded(c, before, stages, base, check, i, on);
        if o.None? {
          return None;
        }
        probes := probes + [o.value.process];
        if o.value.blockers != [] || !o.value.process.terminated {
          return None;
        }
      }
      ghost var before, was, had := stages, uncertain, blockers;
      var o := Stage(Checking(check), Subject(on.role, index, check.id, on.inputs, probes));
      StageAdded(c, runtime, before, stages, base, on.role);
      StageRan(before, stages);
      TallyJoined(before, stages, base, old(uncertain), was, uncertain, had, blockers);
      if o.None? {
        return None;
      }
      CheckAdded(c, before, stages, base, check, on);
      return Some(Capture(check.id, o.value.process, probes));
    }

    /** Runs the checks of one phase in profile order, keeping the captures made before a failure. */
    method RunChecks(index: nat, phase: Phase, on: Setting) returns (ok: bool, captures: seq<Capture>)
      modifies this
      ensures old(stages) <= stages && Recorded(runtime, stages, old(|stages|))
      ensures OnlyChecks(stages, old(|stages|), on.role) && old(blockers) <= blockers
      ensures ok ==> |stages| == old(|stages|) + Span(InPhase(ctx.checks, phase))
      ensures ok ==> PhaseRun(For(index), stages, old(|stages|), InPhase(ctx.checks, phase), on)
      ensures ok ==> captures == CapturesAt(stages, old(|stages|), InPhase(ctx.checks, phase))
      ensures Tallied(stages, old(|stages|), old(uncertain), uncertain, blockers)
      ensures ok ==> AllRan(stages, old(|stages|))
      ensures Clean(For(index), stages, old(|stages|), |stages|) && Fitting(ctx.checks) && Covers(phase, on.trees) ==>
                ok && blockers == old(blockers) && uncertain == old(uncertain)
    {
      hide CheckRun, CaptureAt, InPhase, Span, CapturesAt, Width, PhaseRun, StageOk, Fitting, Supplied, Covers, Clean,
        Recorded, OnlyChecks, Tallied, AllRan;
      captures := [];
      ghost var c := For(index);
      ghost var base := |stages|;
      PhaseStart(c, stages, base, ctx.checks, phase, on);
      NothingAdded(runtime, stages, on.role);
      TallyNone(stages, uncertain, blockers);
      ghost var smooth := Fitting(ctx.checks) && Covers(phase, on.trees);
      for i := 0 to |ctx.checks|
        invariant old(stages) <= stages && old(blockers) <= blockers
        invariant Recorded(runtime, stages, base) && OnlyChecks(stages, base, on.role)
        invariant |stages| == base + Span(InPhase(ctx.checks[..i], phase))
        invariant PhaseRun(c, stages, base, InPhase(ctx.checks[..i], phase), on)
        invariant captures == CapturesAt(stages, base, InPhase(ctx.checks[..i], phase))
        invariant Tallied(stages, base, old(uncertain), uncertain, blockers) && AllRan(stages, base)
        invariant Clean(c, stages, base, |stages|) && smooth ==>
                    blockers == old(blockers) && uncertain == old(uncertain)
      {
        var check := ctx.checks[i];
        ghost var done := InPhase(ctx.checks[..i], phase);
        InPhaseStep(ctx.checks, i, phase);
        assert done + [] == done;
        if check.phase == phase {
          ghost var before, was, had := stages, uncertain, blockers;
          if smooth {
            FittingSupplied(ctx.checks, check, on.trees);
          }
          var capture := RunCheck(index, check, on);
          TallyJoined(before, stages, base, old(uncertain), was, uncertain, had, blockers);
          Joined(c, runtime, before, stages, base);
          ChecksJoined(before, stages, base, on.role);
          PhaseKept(c, before, stages, base, done, on);
          if capture.None? {
            return false, captures;
          }
          PhaseAppend(c, stages, base, done, check, on);
          captures := captures + [capture.value];
        }
      }
      assert ctx.checks[..|ctx.checks|] == ctx.checks;
      return true, captures;
    }

    /** Runs the executor of one role and then its post checks; a failed stage leaves the record partial. */
    method RunRole(index: nat, role: StageRole, pre: seq<Capture>, execute: bool) returns (run: PartialRun)
      modifies this
      ensures old(stages) <= stages && Recorded(runtime, stages, old(|stages|)) && old(blockers) <= blockers
      ensures run.role == role
      ensures OnlyChecks(stages, old(|stages|) + 1, role)
      ensures |stages| > old(|stages|) ==> stages[old(|stages|)].subject.role == role
      ensures Tallied(stages, old(|stages|), old(uncertain), uncertain, blockers)
      ensures |stages| > old(|stages|) + 1 ==>
                !old(uncertain) && !Doubt(stages, old(|stages|), old(|stages|) + 1)
      ensures !execute ==> run == PartialRun(role, None, None, pre)
      ensures !execute ==> stages == old(stages) && blockers == old(blockers) && uncertain == old(uncertain)
      ensures Clean(For(index), stages, old(|stages|), |stages|) && Fitting(ctx.checks) && execute
              && !old(uncertain) ==>
                && blockers == old(blockers) && !uncertain
                && |stages| == old(|stages|) + 1 + PostSpan(For(index))
                && RoleRun(For(index), stages, old(|stages|), role)
                && run == Whole(RoleAt(For(index), stages, old(|stages|), role, pre))
    {
      hide Clean, InPhase, Span, CapturesAt, Fitting, PhaseRun, StageOk, Tallied, Doubt;
      ghost var c := For(index);
      ghost var before := stages;
      TallyNone(stages, uncertain, blockers);
      var result: Option<Outcome> := None;
      var captures := pre;
      if execute {
        result := Stage(Executing, ExecutorSubject(For(index), role));
        ghost var executed := stages;
        LastStage(c, before, executed, |before|);
        ghost var was, had := uncertain, blockers;
        var ok := result.Some?;
        if result.Some? && result.value.captured.Some? && !uncertain {
          var on := PostSetting(For(index), role, result.value.captured.value.0);
          var post;
          ok, post := RunChecks(index, Post, on);
          captures := pre + post;
          DoubtKept(executed, stages, |before|, |executed|);
          TallyMeans(executed, |before|, old(uncertain), was, had);
          TallyJoined(executed, stages, |before|, old(uncertain), was, uncertain, had, blockers);
        }
        ghost var heard := blockers;
        if !ok {
          blockers := blockers + ["ROLE_ABORTED"];
        }
        TallyMore(stages, |before|, old(uncertain), uncertain, heard, blockers);
        ExecutorKept(c, runtime, before, executed, stages, role);
      }
      return PartialRun(role, if result.Some? then result.value.captured else None,
                        if result.Some? then Some(result.value.process) else None, captures);
    }

    /** Runs the pre checks of the old role and then those of the new one. */
    method RunPre(index: nat) returns (ok: bool, oldPre: seq<Capture>, newPre: seq<Capture>)
      modifies this
      ensures old(stages) <= stages && Recorded(runtime, stages, old(|stages|)) && old(blockers) <= blockers
      ensures forall i | old(|stages|) <= i < |stages| :: !stages[i].what.Executing? && !stages[i].subject.role.Both?
      ensures ok ==> |stages| == OldExecutor(For(index), old(|stages|)) && PreRun(For(index), stages, old(|stages|))
      ensures Tallied(stages, old(|stages|), old(uncertain), uncertain, blockers)
      ensures ok ==> AllRan(stages, old(|stages|))
      ensures ok ==>
                && oldPre == PreAt(For(index), stages, old(|stages|))
                && newPre == PreAt(For(index), stages, old(|stages|) + PreSpan(For(index)))
      ensures Clean(For(index), stages, old(|stages|), |stages|) && Fitting(ctx.checks) ==>
                ok && blockers == old(blockers) && uncertain == old(uncertain)
    {
      hide Clean, InPhase, Span, CapturesAt, Fitting, PhaseRun, Recorded, Tallied, AllRan;
      ghost var c := For(index);
      ghost var before := stages;
      newPre := [];
      ok, oldPre := RunChecks(index, Pre, PreSetting(For(index), Old));
      if ok {
        ghost var middle, was, had := stages, uncertain, blockers;
        ok, newPre := RunChecks(index, Pre, PreSetting(For(index), New));
        TallyJoined(middle, stages, |before|, old(uncertain), was, uncertain, had, blockers);
        Joined(c, runtime, middle, stages, |before|);
        assert middle == stages[..|middle|];
        PhaseKept(c, middle, stages, |before|, InPhase(ctx.checks, Pre), PreSetting(For(index), Old));
      }
    }

    /** Runs the pair checks when both roles left a tree and all their checks said something. */
    method RunPaired(index: nat, old': PartialRun, new': PartialRun, oldRecord: string, newRecord: string)
      returns (captures: seq<Capture>)
      modifies this
      ensures old(stages) <= stages && Recorded(runtime, stages, old(|stages|)) && old(blockers) <= blockers
      ensures OnlyChecks(stages, old(|stages|), Both)
      ensures Tallied(stages, old(|stages|), old(uncertain), uncertain, blockers)
      ensures !Comparable(For(index), old', new') || old(uncertain) ==>
                && captures == []
                && stages == old(stages) && blockers == old(blockers) && uncertain == old(uncertain)
      ensures Clean(For(index), stages, old(|stages|), |stages|) && Fitting(ctx.checks)
              && Comparable(For(index), old', new')
              && !old(uncertain) ==>
                && blockers == old(blockers) && !uncertain
                && |stages| == old(|stages|) + PairSpan(For(index))
                && PhaseRun(For(index), stages, old(|stages|), InPhase(ctx.checks, Paired),
                            PairSetting(For(index), old'.captured.value.0, new'.captured.value.0, oldRecord, newRecord))
                && captures == CapturesAt(stages, old(|stages|), InPhase(ctx.checks, Paired))
    {
      hide Clean, InPhase, Span, CapturesAt, Fitting, PhaseRun, PostComplete, Tallied, AllRan;
      captures := [];
      TallyNone(stages, uncertain, blockers);
      if Comparable(For(index), old', new') && !uncertain {
        var on := PairSetting(For(index), old'.captured.value.0, new'.captured.value.0, oldRecord, newRecord);
        var ok;
        ok, captures := RunChecks(index, Paired, on);
        ghost var heard := blockers;
        if !ok {
          blockers := blockers + ["PAIR_ABORTED"];
        }
        TallyMore(stages, old(|stages|), old(uncertain), uncertain, heard, blockers);
      }
    }

    /**
     Runs the pre checks of both roles and, if they all held and nothing is blocked, the roles.
     No executor is started before that, and the parts of a log that went well are returned.
     */
    method RunRoles(index: nat)
      returns (old': PartialRun, new': PartialRun, ghost prepared: Log, ghost half: Log)
      modifies this
      ensures old(stages) <= prepared <= half <= stages && Recorded(runtime, stages, old(|stages|))
      ensures old'.role.Old? && new'.role.New? && old(blockers) <= blockers
      ensures Gated(For(index), stages, old(|stages|), old(blockers) == [])
      ensures Prudent(stages, old(|stages|), OldExecutor(For(index), old(|stages|)), old(uncertain), uncertain,
                      blockers)
      ensures Clean(For(index), stages, old(|stages|), |stages|) && ProfileOk(ctx.checks) && old(blockers) == []
              && !old(uncertain) ==>
                && RolesRun(For(index), old(stages), prepared, half, stages)
                && Clean(For(index), prepared, old(|stages|), |prepared|)
                && Clean(For(index), half, |prepared|, |half|) && Clean(For(index), stages, |half|, |stages|)
                && old' == Whole(RoleAt(For(index), half, |prepared|, Old, PreAt(For(index), prepared, old(|stages|))))
                && new' == Whole(RoleAt(For(index), stages, |half|, New,
                                        PreAt(For(index), prepared, old(|stages|) + PreSpan(For(index)))))
                && blockers == [] && !uncertain
    {
      hide Clean, InPhase, Span, CapturesAt, Fitting, ProfileOk, RoleAt, AllTrue, PhaseRun, PreRun, RoleRun, PreAt,
        OldExecutor, PreSpan, PostSpan, Recorded, Tallied, AllRan, Doubt, Prudent, OnlyChecks, Cleared, Gated;
      ghost var c := For(index);
      ghost var before := stages;
      var ok, oldPre, newPre := RunPre(index);
      prepared := stages;
      ghost var ready, heard := uncertain, blockers;
      var execute := ok && AllTrue(For(index), oldPre + newPre) && blockers == [];
      if !ok {
        blockers := blockers + ["PRECONDITION_UNAVAILABLE"];
      }
      if !execute {
        blockers := blockers + ["PRECONDITION_FAILED"];
      }
      old' := RunRole(index, Old, oldPre, execute);
      half := stages;
      ghost var halfway, told := uncertain, blockers;
      new' := RunRole(index, New, newPre, execute && !uncertain);
      RolesPrudent(before, prepared, half, stages, old(uncertain), ready, halfway, uncertain, heard, told, blockers,
                   execute, OldExecutor(c, |before|));
      RolesSplit(c, runtime, before, prepared, half, stages);
      RolesGated(c, before, prepared, half, stages, execute, old(blockers) == [], oldPre, newPre);
      if Clean(c, stages, |before|, |stages|) && ProfileOk(ctx.checks) && old(blockers) == [] && !old(uncertain) {
        ProfileParts(ctx.checks);
        PreCleared(c, prepared, |before|);
        HeldIfCleared(c, prepared, |before|);
      }
    }

    /**
     Runs one repetition of both roles and the checks that compare them.  Whatever the runtime
     does, no executor is started before every pre check of both roles was seen to hold, none at
     all once there are blockers, and no stage of a pair check is started on roles that are not
     complete.  If all stages of this very pair went well the record is complete and accepted
     exactly when the profile has a pair check.
     */
    method Pair(index: nat, recordId: PartialRun -> string) returns (r: PairRecord)
      modifies this
      ensures old(stages) <= stages && Recorded(runtime, stages, old(|stages|)) && old(blockers) <= blockers
      ensures r.old'.role.Old? && r.new'.role.New?
      ensures forall i | old(|stages|) <= i < |stages| && stages[i].what.Executing? ::
                OldExecutor(For(index), old(|stages|)) <= i && Cleared(For(index), stages, old(|stages|))
                  && old(blockers) == []
      ensures forall i | old(|stages|) <= i < |stages| && stages[i].subject.role.Both? ::
                Comparable(For(index), r.old', r.new')
      ensures Prudent(stages, old(|stages|), OldExecutor(For(index), old(|stages|)), old(uncertain), uncertain,
                      blockers)
      ensures Accepts(For(index), stages, old(|stages|), |stages|, old(blockers) == [] && !old(uncertain), r,
                      recordId(r.old'), recordId(r.new'))
      ensures Healthy(For(index), stages, old(|stages|), |stages|) && ContextOk(For(index)) && old(blockers) == [] ==>
                old(uncertain) || (blockers == [] && !uncertain)
    {
      hide Clean, InOrder, InPhase, CapturesAt, ProfileOk, Accepted, RoleAt, PostComplete, PhaseRun, HasPairCheck,
        PreAt,
        OldExecutor, PreSpan, PostSpan, PairSpan, Recorded, RolesRun, Cleared, PairSetting, Tallied, Prudent;
      ghost var c := For(index);
      ghost var before := stages;
      var old', new', prepared, half := RunRoles(index);
      ghost var both, was, had := stages, uncertain, blockers;
      var captures := RunPaired(index, old', new', recordId(old'), recordId(new'));
      r := PairRecord(old', new', captures);
      Joined(c, runtime, both, stages, |before|);
      assert both == stages[..|both|];
      PairPrudent(before, both, stages, OldExecutor(c, |before|), old(uncertain), was, uncertain, had, blockers);
      forall i | |before| <= i < |stages| && stages[i].what.Executing?
        ensures OldExecutor(c, |before|) <= i && Cleared(c, stages, |before|) && old(blockers) == []
      {
        assert i < |both| && stages[i] == both[i];
        ClearedKept(c, both, stages, |before|);
      }
      if Healthy(c, stages, |before|, |stages|) && ContextOk(c) && old(blockers) == [] && !old(uncertain) {
        ProfileParts(ctx.checks);
        WholePair(c, before, prepared, half, both, stages, recordId(old'), recordId(new'));
      }
    }
  }

  /**
   If the stages went well and nothing stood in the way, the record is complete, and accepted iff
   there is a pair check.
   */
  ghost predicate Accepts(ctx: Context, log: Log, lo: nat, hi: nat, clear: bool, r: PairRecord,
                          oldRecord: string, newRecord: string) {
    Healthy(ctx, log, lo, hi) && ContextOk(ctx) && clear ==>
      && r.old'.Complete() && r.new'.Complete()
      && (Accepted(ctx, r.old'.Completed(), r.new'.Completed(), r.paired, oldRecord, newRecord) <==> HasPairCheck(ctx))
  }

  predicate Comparable(ctx: Context, old': PartialRun, new': PartialRun) {
    old'.captured.Some? && new'.captured.Some? && PostComplete(ctx, old'.captures) && PostComplete(ctx, new'.captures)
  }

  // --------------------------------------------------------- putting the parts of a log together

  lemma ExecutorKept(ctx: Context, runtime: Runtime, before: Log, executed: Log, after: Log, role: StageRole)
    requires before <= executed <= after && |executed| == |before| + 1
    requires executed[|before|].what == Executing && executed[|before|].subject == ExecutorSubject(ctx, role)
    ensures Recorded(runtime, executed, |before|) && Recorded(runtime, after, |executed|)
            ==> Recorded(runtime, after, |before|)
    ensures Clean(ctx, after, |before|, |after|) ==>
              && Clean(ctx, executed, |before|, |executed|) && Clean(ctx, after, |executed|, |after|)
              && executed[|before|].outcome.captured == Some(TreeAt(after, |before|))
    ensures executed[|before|].outcome.Ran? ==> executed[|before|].outcome.process == ProcessAt(after, |before|)
    ensures ExecutorRun(ctx, after, |before|, role)
  {
    hide StageOk, Clean;
    assert executed == after[..|executed|];
    assert after[|before|] == executed[|before|];
    CleanParts(ctx, after, |before|, |executed|);
    CleanPrefix(ctx, executed, after, |before|);
    if Recorded(runtime, executed, |before|) && Recorded(runtime, after, |executed|) {
      RecordedOn(runtime, executed, after, |before|);
    }
    if Clean(ctx, after, |before|, |after|) {
      ExecutorFine(ctx, after, |before|, |after|, |before|, role);
    }
  }

  /** A clean log is clean in each of its parts, and outcomes recorded part by part are recorded throughout. */
  lemma RolesSplit(ctx: Context, runtime: Runtime, a: Log, b: Log, c: Log, d: Log)
    requires a <= b <= c <= d
    requires Recorded(runtime, b, |a|) && Recorded(runtime, c, |b|) && Recorded(runtime, d, |c|)
    ensures a <= d && Recorded(runtime, d, |a|)
    ensures Clean(ctx, d, |a|, |d|) ==> Clean(ctx, b, |a|, |b|) && Clean(ctx, c, |b|, |c|) && Clean(ctx, d, |c|, |d|)
  {
    hide Clean, Recorded;
    Joined(ctx, runtime, b, c, |a|);
    Joined(ctx, runtime, c, d, |a|);
  }

  /**
   If any executor was started, the stages before the first place of one all ran and raised nothing,
   and the old executor is at that place.
   */
  predicate OpensQuietly(log: Log, lo: nat, hi: nat, first: nat) {
    forall i | lo <= i < hi && i < |log| && log[i].what.Executing? ::
      Quiet(log, lo, first) && (log[i].subject.role.Old? ==> i == first) && !log[i].subject.role.Both?
  }

  /** The stages from lo on are accounted for, and the runner was careful about what they left behind. */
  ghost predicate Prudent(log: Log, lo: nat, first: nat, before: bool, after: bool, blockers: seq<string>) {
    && Tallied(log, lo, before, after, blockers)
    && Careful(log, lo, |log|, before)
    && OpensQuietly(log, lo, |log|, first)
  }

  lemma RolesPrudent(a: Log, b: Log, c: Log, d: Log, u: bool, ub: bool, uc: bool, ud: bool,
                     heard: seq<string>, told: seq<string>, bs: seq<string>, execute: bool, first: nat)
    requires a <= b <= c <= d && heard <= told <= bs
    requires Tallied(b, |a|, u, ub, heard) && Tallied(c, |b|, ub, uc, told) && Tallied(d, |c|, uc, ud, bs)
    requires forall i | |a| <= i < |b| :: !b[i].what.Executing? && !b[i].subject.role.Both?
    requires OnlyChecks(c, |b| + 1, Old) && (|c| > |b| ==> c[|b|].subject.role == Old)
    requires OnlyChecks(d, |c| + 1, New) && (|d| > |c| ==> d[|c|].subject.role == New)
    requires |c| > |b| + 1 ==> !ub && !Doubt(c, |b|, |b| + 1)
    requires |d| > |c| ==> !uc
    requires |d| > |c| + 1 ==> !Doubt(d, |c|, |c| + 1)
    requires if execute then heard == [] && AllRan(b, |a|) && first == |b| else c == b && d == c
    ensures Prudent(d, |a|, first, u, ud, bs)
  {
    hide Tallied, Careful, Doubt, AllRan, OpensQuietly;
    RolesTallied(a, b, c, d, u, ub, uc, ud, heard, told, bs);
    WhereStagesAre(a, b, c, d, execute);
    if execute {
      OpenedQuietly(a, b, d, u, ub, heard);
    } else {
      NoneOpened(a, d, first);
    }
  }

  lemma PairPrudent(a: Log, d: Log, e: Log, first: nat, u: bool, ud: bool, ue: bool, had: seq<string>, bs: seq<string>)
    requires a <= d <= e && had <= bs && Prudent(d, |a|, first, u, ud, had) && Tallied(e, |d|, ud, ue, bs)
    requires forall i | |a| <= i < |d| :: !d[i].subject.role.Both?
    requires OnlyChecks(e, |d|, Both) && (|e| > |d| ==> !ud)
    ensures Prudent(e, |a|, first, u, ue, bs)
  {
    hide Tallied, Careful, OpensQuietly;
    TallyJoined(d, e, |a|, u, ud, ue, had, bs);
    PairCareful(a, d, e, u, ud, had);
    OpenedKept(a, d, e, first);
  }

  lemma OpenedQuietly(a: Log, b: Log, d: Log, u: bool, ub: bool, bs: seq<string>)
    requires a <= b <= d && Tallied(b, |a|, u, ub, bs) && bs == [] && AllRan(b, |a|)
    requires forall i | |a| <= i < |d| && d[i].what.Executing? && d[i].subject.role.Old? :: i == |b|
    requires forall i | |a| <= i < |d| :: !d[i].subject.role.Both?
    ensures OpensQuietly(d, |a|, |d|, |b|)
  {
    hide Tallied, AllRan, Quiet;
    QuietSoFar(b, |a|, u, ub, bs);
    QuietKept(b, d, |a|, |b|);
  }

  lemma NoneOpened(a: Log, d: Log, first: nat)
    requires a <= d && forall i | |a| <= i < |d| :: !d[i].what.Executing?
    ensures OpensQuietly(d, |a|, |d|, first)
  {
  }

  lemma OpenedKept(a: Log, d: Log, e: Log, first: nat)
    requires a <= d <= e && OpensQuietly(d, |a|, |d|, first)
    requires forall i | |d| <= i < |e| :: !e[i].what.Executing?
    ensures OpensQuietly(e, |a|, |e|, first)
  {
    hide Quiet;
    SameStages(d, e);
    forall i | |a| <= i < |e| && e[i].what.Executing?
      ensures Quiet(e, |a|, first) && (e[i].subject.role.Old? ==> i == first) && !e[i].subject.role.Both?
    {
      assert d[i].what.Executing?;
      QuietKept(d, e, |a|, first);
    }
  }

  lemma RolesTallied(a: Log, b: Log, c: Log, d: Log, u: bool, ub: bool, uc: bool, ud: bool,
                     heard: seq<string>, told: seq<string>, bs: seq<string>)
    requires a <= b <= c <= d && heard <= told <= bs
    requires Tallied(b, |a|, u, ub, heard) && Tallied(c, |b|, ub, uc, told) && Tallied(d, |c|, uc, ud, bs)
    requires forall i | |a| <= i < |b| :: !b[i].what.Executing? && !b[i].subject.role.Both?
    requires OnlyChecks(c, |b| + 1, Old) && (|c| > |b| ==> c[|b|].subject.role == Old)
    requires OnlyChecks(d, |c| + 1, New) && (|d| > |c| ==> d[|c|].subject.role == New)
    requires |c| > |b| + 1 ==> !ub && !Doubt(c, |b|, |b| + 1)
    requires |d| > |c| ==> !uc
    requires |d| > |c| + 1 ==> !Doubt(d, |c|, |c| + 1)
    ensures Tallied(d, |a|, u, ud, bs) && Careful(d, |a|, |d|, u)
    ensures forall i | |a| <= i < |d| && d[i].what.Executing? && d[i].subject.role.Old? :: i == |b|
  {
    hide Tallied, Careful, Doubt;
    TallyMore(b, |a|, u, ub, heard, bs);
    TallyMore(c, |b|, ub, uc, told, bs);
    RolesCareful(a, b, c, d, u, ub, uc, ud, bs);
    TallyJoined(b, c, |a|, u, ub, uc, bs, bs);
    TallyJoined(c, d, |a|, u, uc, ud, bs, bs);
  }

  lemma StageRan(before: Log, after: Log)
    requires before <= after && |after| == |before| + 1
    ensures after[|before|].outcome.Ran? ==> AllRan(after, |before|)
  {
  }

  lemma TallyMeans(log: Log, lo: nat, before: bool, after: bool, blockers: seq<string>)
    requires Tallied(log, lo, before, after, blockers)
    ensures after == (before || Doubt(log, lo, |log|))
  {
  }

  lemma Continues(a: Log, b: Log, c: Log)
    requires a <= b <= c
    ensures a <= c
  {
  }

  lemma PreKept(ctx: Context, log: Log, log': Log, base: nat)
    requires log <= log' && PreRun(ctx, log, base)
    ensures PreRun(ctx, log', base)
    ensures PreAt(ctx, log', base) == PreAt(ctx, log, base)
    ensures PreAt(ctx, log', base + PreSpan(ctx)) == PreAt(ctx, log, base + PreSpan(ctx))
  {
    hide PhaseRun, CapturesAt, InPhase, Span;
    PhaseKept(ctx, log, log', base, InPhase(ctx.checks, Pre), PreSetting(ctx, Old));
    PhaseKept(ctx, log, log', base + PreSpan(ctx), InPhase(ctx.checks, Pre), PreSetting(ctx, New));
  }

  lemma ClearedKept(ctx: Context, log: Log, log': Log, base: nat)
    requires log <= log' && Cleared(ctx, log, base)
    ensures Cleared(ctx, log', base)
  {
    hide PreRun, PreAt, AllTrue, PreSpan;
    PreKept(ctx, log, log', base);
  }

  lemma RoleKept(ctx: Context, log: Log, log': Log, k: nat, role: StageRole, pre: seq<Capture>)
    requires log <= log' && RoleRun(ctx, log, k, role)
    ensures RoleRun(ctx, log', k, role) && RoleAt(ctx, log', k, role, pre) == RoleAt(ctx, log, k, role, pre)
  {
    hide PhaseRun, CapturesAt, InPhase;
    assert log == log'[..|log|];
    assert log'[k] == log[k];
    PhaseKept(ctx, log, log', k + 1, InPhase(ctx.checks, Post), PostSetting(ctx, role, TreeAt(log, k).0));
  }

  /** Logs of the roles, each continuing the one before: the pre checks, the old role and the new role. */
  predicate RolesRun(ctx: Context, a: Log, b: Log, c: Log, d: Log) {
    && a <= b <= c <= d
    && |b| == OldExecutor(ctx, |a|) && PreRun(ctx, b, |a|)
    && |c| == |b| + 1 + PostSpan(ctx) && RoleRun(ctx, c, |b|, Old)
    && |d| == |c| + 1 + PostSpan(ctx) && RoleRun(ctx, d, |c|, New)
  }

  lemma RolesComparable(ctx: Context, a: Log, b: Log, c: Log, d: Log)
    requires RolesRun(ctx, a, b, c, d) && ProfileOk(ctx.checks)
    requires Clean(ctx, b, |a|, |b|) && Clean(ctx, c, |b|, |c|) && Clean(ctx, d, |c|, |d|)
    ensures PostComplete(ctx, RoleAt(ctx, c, |b|, Old, PreAt(ctx, b, |a|)).captures)
    ensures PostComplete(ctx, RoleAt(ctx, d, |c|, New, PreAt(ctx, b, |a| + PreSpan(ctx))).captures)
  {
    hide PostComplete, RoleRun, PhaseRun, ProfileOk, Clean, RoleAt, PreAt, InPhase, PostSpan, PreSpan;
    PreKept(ctx, b, c, |a|);
    PreKept(ctx, b, d, |a|);
    CleanParts(ctx, c, |a|, |b|);
    CleanPrefix(ctx, b, c, |a|);
    CleanParts(ctx, d, |a|, |c|);
    CleanPrefix(ctx, c, d, |a|);
    RoleComplete(ctx, c, |a|, |c|, |a|, |b|, Old);
    RoleComplete(ctx, d, |a|, |d|, |a| + PreSpan(ctx), |c|, New);
  }

  /** A pair put together from parts that went well is complete and accepted iff there is a pair check. */
  lemma WholePair(ctx: Context, a: Log, b: Log, c: Log, d: Log, e: Log, oldRecord: string, newRecord: string)
    requires RolesRun(ctx, a, b, c, d) && d <= e && ContextOk(ctx)
    requires Clean(ctx, b, |a|, |b|) && Clean(ctx, c, |b|, |c|) && Clean(ctx, d, |c|, |d|)
    ensures var old' := Whole(RoleAt(ctx, c, |b|, Old, PreAt(ctx, b, |a|)));
            var new' := Whole(RoleAt(ctx, d, |c|, New, PreAt(ctx, b, |a| + PreSpan(ctx))));
            && Comparable(ctx, old', new')
            && (Healthy(ctx, e, |a|, |e|) && |e| == |d| + PairSpan(ctx)
                && PhaseRun(ctx, e, |d|, InPhase(ctx.checks, Paired),
                            PairSetting(ctx, old'.captured.value.0, new'.captured.value.0, oldRecord, newRecord)) ==>
                  (Accepted(ctx, old'.Completed(), new'.Completed(), CapturesAt(e, |d|, InPhase(ctx.checks, Paired)),
                            oldRecord, newRecord)
                   <==> HasPairCheck(ctx)))
  {
    hide PostComplete, RoleRun, PhaseRun, ProfileOk, Clean, RoleAt, PreAt, InPhase, PostSpan, PreSpan, PairSpan, PreRun,
      Healthy, Accepted, HasPairCheck, PairSetting, CapturesAt, RolesRun;
    RolesComparable(ctx, a, b, c, d);
    var old' := RoleAt(ctx, c, |b|, Old, PreAt(ctx, b, |a|));
    var new' := RoleAt(ctx, d, |c|, New, PreAt(ctx, b, |a| + PreSpan(ctx)));
    if Healthy(ctx, e, |a|, |e|) && |e| == |d| + PairSpan(ctx)
       && PhaseRun(ctx, e, |d|, InPhase(ctx.checks, Paired),
                   PairSetting(ctx, old'.final, new'.final, oldRecord, newRecord)) {
      PairAssembled(ctx, a, b, c, d, e, oldRecord, newRecord);
      PairAccepted(ctx, e, |a|, oldRecord, newRecord);
    }
  }

  lemma PairAssembled(ctx: Context, a: Log, b: Log, c: Log, d: Log, e: Log, oldRecord: string, newRecord: string)
    requires RolesRun(ctx, a, b, c, d) && d <= e && |e| == |d| + PairSpan(ctx)
    requires PhaseRun(ctx, e, |d|, InPhase(ctx.checks, Paired),
                      PairSetting(ctx, RoleAt(ctx, c, |b|, Old, PreAt(ctx, b, |a|)).final,
                                  RoleAt(ctx, d, |c|, New, PreAt(ctx, b, |a| + PreSpan(ctx))).final, oldRecord,
                                    newRecord))
    ensures PairRun(ctx, e, |a|, oldRecord, newRecord) && |e| == PairEnd(ctx, |a|)
    ensures OldAt(ctx, e, |a|) == RoleAt(ctx, c, |b|, Old, PreAt(ctx, b, |a|))
    ensures NewAt(ctx, e, |a|) == RoleAt(ctx, d, |c|, New, PreAt(ctx, b, |a| + PreSpan(ctx)))
    ensures PairedAt(ctx, e, |a|) == CapturesAt(e, |d|, InPhase(ctx.checks, Paired))
  {
    hide RoleRun, PhaseRun, PreAt, RoleAt, InPhase, PostSpan, PreSpan, PairSpan, PreRun, CapturesAt, PairSetting;
    Continues(b, c, d);
    Continues(b, d, e);
    Continues(c, d, e);
    PreKept(ctx, b, e, |a|);
    RoleKept(ctx, c, e, |b|, Old, PreAt(ctx, b, |a|));
    RoleKept(ctx, d, e, |c|, New, PreAt(ctx, b, |a| + PreSpan(ctx)));
  }

  /** The first i probes of the check were run. */
  predicate Probed(ctx: Context, log: Log, k: nat, check: Check, i: nat, on: Setting) {
    && i <= |check.probes| && k + i <= |log|
    && forall j | 0 <= j < i :: ProbeRun(ctx, log, k + j, check.probes[j], on)
  }

  lemma NothingAdded(runtime: Runtime, log: Log, role: StageRole)
    ensures Recorded(runtime, log, |log|) && OnlyChecks(log, |log|, role)
  {
  }

  lemma NothingProbed(ctx: Context, runtime: Runtime, log: Log, k: nat, check: Check, on: Setting)
    requires k == |log|
    ensures Probed(ctx, log, k, check, 0, on) && ProbesAt(log, k, 0) == []
    ensures Recorded(runtime, log, k) && OnlyChecks(log, k, on.role)
  {
  }

  lemma SameProcesses(before: Log, after: Log)
    requires before <= after
    ensures forall j: nat | j < |before| :: ProcessAt(after, j) == ProcessAt(before, j)
  {
    assert before == after[..|before|];
    forall j: nat | j < |before| ensures ProcessAt(after, j) == ProcessAt(before, j) {
      assert after[j] == before[j];
    }
  }

  lemma SameProbes(before: Log, after: Log, k: nat, n: nat)
    requires before <= after && k + n <= |before|
    ensures ProbesAt(after, k, n) == ProbesAt(before, k, n)
  {
    hide ProcessAt;
    SameProcesses(before, after);
  }

  /** One more stage, of a check or a probe. */
  lemma StageAdded(ctx: Context, runtime: Runtime, before: Log, after: Log, lo: nat, role: StageRole)
    requires before <= after && |after| == |before| + 1 && lo <= |before|
    requires Recorded(runtime, before, lo) && OnlyChecks(before, lo, role)
    requires var r := after[|before|]; r.outcome == runtime(|before|, r.what, r.subject)
    requires !after[|before|].what.Executing? && after[|before|].subject.role == role
    ensures Recorded(runtime, after, lo) && OnlyChecks(after, lo, role)
    ensures Clean(ctx, after, lo, |after|) ==>
              && Clean(ctx, before, lo, |before|)
              && var o := after[|before|].outcome;
              && o.Ran? && o.blockers == [] && !o.retained && o.process.terminated
  {
    hide Clean;
    LastStage(ctx, before, after, lo);
    assert before == after[..|before|];
    assert forall i | lo <= i < |before| :: after[i] == before[i];
  }

  lemma ProbeAdded(ctx: Context, before: Log, after: Log, k: nat, check: Check, i: nat, on: Setting)
    requires before <= after && |after| == |before| + 1 && |before| == k + i && i < |check.probes|
    requires Probed(ctx, before, k, check, i, on) && ProbeRun(ctx, after, k + i, check.probes[i], on)
    ensures Probed(ctx, after, k, check, i + 1, on)
    ensures after[k + i].outcome.Ran? ==>
              ProbesAt(after, k, i + 1) == ProbesAt(before, k, i) + [after[k + i].outcome.process]
  {
    SameProbes(before, after, k, i);
    assert ProbesAt(after, k, i + 1) == ProbesAt(after, k, i) + [ProcessAt(after, k + i)];
    assert before == after[..|before|];
    forall j | 0 <= j < i + 1 ensures ProbeRun(ctx, after, k + j, check.probes[j], on) {
      if j < i {
        assert ProbeRun(ctx, before, k + j, check.probes[j], on);
        assert after[k + j] == before[k + j];
      }
    }
  }

  /** The check over the observations of all its probes completes it. */
  lemma CheckAdded(ctx: Context, before: Log, after: Log, k: nat, check: Check, on: Setting)
    requires before <= after && |after| == |before| + 1 && |before| == k + |check.probes|
    requires Probed(ctx, before, k, check, |check.probes|, on)
    requires after[|before|].what == Checking(check) && after[|before|].outcome.Ran?
    requires after[|before|].subject
          == Subject(on.role, ctx.repetition, check.id, on.inputs, ProbesAt(before, k, |check.probes|))
    ensures CheckRun(ctx, after, k, check, on)
    ensures CaptureAt(after, k, check)
         == Capture(check.id, after[|before|].outcome.process, ProbesAt(before, k, |check.probes|))
  {
    hide ProbesAt;
    SameProbes(before, after, k, |check.probes|);
    assert before == after[..|before|];
    forall j | 0 <= j < |check.probes| ensures ProbeRun(ctx, after, k + j, check.probes[j], on) {
      assert ProbeRun(ctx, before, k + j, check.probes[j], on);
      assert after[k + j] == before[k + j];
    }
  }

  /** What is recorded and clean part by part is so throughout. */
  lemma Joined(ctx: Context, runtime: Runtime, before: Log, after: Log, lo: nat)
    requires before <= after && lo <= |before|
    requires Recorded(runtime, before, lo) && Recorded(runtime, after, |before|)
    ensures Recorded(runtime, after, lo)
    ensures Clean(ctx, after, lo, |after|) <==> Clean(ctx, before, lo, |before|) && Clean(ctx, after, |before|, |after|)
  {
    hide Clean, Recorded;
    RecordedOn(runtime, before, after, lo);
    CleanParts(ctx, after, lo, |before|);
    CleanPrefix(ctx, before, after, lo);
  }

  lemma ChecksJoined(before: Log, after: Log, lo: nat, role: StageRole)
    requires before <= after && lo <= |before| && OnlyChecks(before, lo, role) && OnlyChecks(after, |before|, role)
    ensures OnlyChecks(after, lo, role)
  {
    assert before == after[..|before|];
    assert forall i | 0 <= i < |before| :: after[i] == before[i];
  }

  /** Executors were started only after all pre checks had held, and only without blockers; no pair check was. */
  ghost predicate Gated(ctx: Context, log: Log, lo: nat, unblocked: bool) {
    && (forall i | lo <= i < |log| :: !log[i].subject.role.Both?)
    && (forall i | lo <= i < |log| && log[i].what.Executing? ::
          OldExecutor(ctx, lo) <= i && Cleared(ctx, log, lo) && unblocked)
  }

  lemma HeldIfCleared(ctx: Context, log: Log, base: nat)
    requires Cleared(ctx, log, base)
    ensures AllTrue(ctx, PreAt(ctx, log, base) + PreAt(ctx, log, base + PreSpan(ctx)))
  {
  }

  lemma RolesGated(ctx: Context, a: Log, b: Log, c: Log, d: Log, execute: bool, unblocked: bool, oldPre: seq<Capture>,
                   newPre: seq<Capture>)
    requires a <= b <= c <= d
    requires forall i | |a| <= i < |b| :: !b[i].what.Executing? && !b[i].subject.role.Both?
    requires OnlyChecks(c, |b| + 1, Old) && (|c| > |b| ==> c[|b|].subject.role == Old)
    requires OnlyChecks(d, |c| + 1, New) && (|d| > |c| ==> d[|c|].subject.role == New)
    requires !execute ==> c == b && d == c
    requires execute ==>
               && unblocked && |b| == OldExecutor(ctx, |a|) && PreRun(ctx, b, |a|) && AllTrue(ctx, oldPre + newPre)
               && oldPre == PreAt(ctx, b, |a|) && newPre == PreAt(ctx, b, |a| + PreSpan(ctx))
    ensures Gated(ctx, d, |a|, unblocked)
  {
    hide OldExecutor, PreRun, PreAt, PreSpan, AllTrue;
    WhereStagesAre(a, b, c, d, execute);
    if execute {
      Continues(b, c, d);
      PreKept(ctx, b, d, |a|);
    }
  }

  /** Where executors can be in the log of the roles, given what each part of it contains. */
  lemma WhereStagesAre(a: Log, b: Log, c: Log, d: Log, execute: bool)
    requires a <= b <= c <= d
    requires forall i | |a| <= i < |b| :: !b[i].what.Executing? && !b[i].subject.role.Both?
    requires OnlyChecks(c, |b| + 1, Old) && (|c| > |b| ==> c[|b|].subject.role == Old)
    requires OnlyChecks(d, |c| + 1, New) && (|d| > |c| ==> d[|c|].subject.role == New)
    requires !execute ==> c == b && d == c
    ensures forall i | |a| <= i < |d| && d[i].what.Executing? :: |b| <= i && execute
    ensures forall i | |a| <= i < |d| :: !d[i].subject.role.Both?
  {
    assert c == d[..|c|] && b == c[..|b|];
    forall i | |a| <= i < |d|
      ensures d[i].what.Executing? ==> |b| <= i && execute
      ensures !d[i].subject.role.Both?
    {
      if i < |b| {
        assert d[i] == b[i];
      } else if i < |c| {
        assert d[i] == c[i];
      }
    }
  }

  /** The last stage of a clean log did what it should. */
  lemma LastStage(ctx: Context, before: Log, after: Log, lo: nat)
    requires before <= after && |after| == |before| + 1 && lo <= |before|
    ensures Clean(ctx, after, lo, |after|) ==>
              && Clean(ctx, before, lo, |before|)
              && var o := after[|before|].outcome;
              && o.Ran? && o.blockers == [] && !o.retained && o.process.terminated
  {
    hide ProcessOk;
    if Clean(ctx, after, lo, |after|) {
      assert before == after[..|before|];
      forall i | lo <= i < |before| ensures StageOk(ctx, before[i]) {
        assert after[i] == before[i];
      }
      assert StageOk(ctx, after[|before|]);
      Terminated(ctx, after[|before|]);
    }
  }

  lemma Terminated(ctx: Context, r: StageRecord)
    requires StageOk(ctx, r)
    ensures r.outcome.process.terminated
  {
  }

  lemma CleanParts(ctx: Context, log: Log, lo: nat, mid: nat)
    requires lo <= mid <= |log|
    ensures Clean(ctx, log, lo, |log|) <==> Clean(ctx, log, lo, mid) && Clean(ctx, log, mid, |log|)
  {
    hide StageOk;
  }

  lemma CleanPrefix(ctx: Context, before: Log, after: Log, lo: nat)
    requires before <= after && lo <= |before|
    ensures Clean(ctx, before, lo, |before|) <==> Clean(ctx, after, lo, |before|)
  {
    hide StageOk;
    assert before == after[..|before|];
  }

  lemma RecordedOn(runtime: Runtime, before: Log, after: Log, lo: nat)
    requires before <= after && lo <= |before| && Recorded(runtime, before, lo) && Recorded(runtime, after, |before|)
    ensures Recorded(runtime, after, lo)
  {
    assert before == after[..|before|];
    forall i | lo <= i < |after| ensures after[i].outcome == runtime(i, after[i].what, after[i].subject) {
      if i < |before| {
        assert after[i] == before[i];
      }
    }
  }
}
