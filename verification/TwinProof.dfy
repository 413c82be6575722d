/**
 The evidence of a well-behaved pair satisfies the evaluator: the order in which the runner goes
 through its stages is the order the evaluator asks for.
 */
module TwinProof {
  import opened Common
  import opened TwinEvaluation
  import opened TwinLog

  // -------------------------------------------------------------------- single stages

  /** Stage numbers order stages in time and tell their containers apart. */
  lemma InTime(ctx: Context, log: Log, lo: nat, hi: nat, i: nat, j: nat)
    requires Healthy(ctx, log, lo, hi) && lo <= i < j < hi
    ensures ProcessAt(log, i).finished <= EndAt(log, i) <= ProcessAt(log, j).started
    ensures ProcessAt(log, i).container != ProcessAt(log, j).container
  {
    hide ProcessOk;
    assert StageOk(ctx, log[i]);
  }

  /** No stage from number k up to hi starts before the time. */
  predicate NotBefore(log: Log, k: nat, hi: nat, time: nat) {
    forall j | k <= j < hi :: time <= ProcessAt(log, j).started
  }

  lemma AfterStage(ctx: Context, log: Log, lo: nat, hi: nat, i: nat, k: nat)
    requires Healthy(ctx, log, lo, hi) && lo <= i < k
    ensures NotBefore(log, k, hi, EndAt(log, i))
    ensures NotBefore(log, k, hi, ProcessAt(log, i).finished)
  {
    hide Healthy, ProcessAt, EndAt;
    forall j | k <= j < hi ensures ProcessAt(log, i).finished <= EndAt(log, i) <= ProcessAt(log, j).started {
      InTime(ctx, log, lo, hi, i, j);
    }
  }

  lemma StageFine(ctx: Context, log: Log, lo: nat, hi: nat, k: nat)
    requires Clean(ctx, log, lo, hi) && lo <= k < hi
    ensures ProcessAt(log, k) == log[k].outcome.process
    ensures ProcessOk(ctx.limits, ProcessAt(log, k), log[k].subject, log[k].what.Probing?)
    ensures log[k].what.Checking? ==>
              ctx.observe(ProcessAt(log, k).stdout, log[k].what.check.id)
                == Some(log[k].what.check.Expected(log[k].subject.role))
  {
    hide ProcessOk;
    assert StageOk(ctx, log[k]);
  }

  // -------------------------------------------------------------------- single captures

  /** The trees a check's probes are given are the ones the evaluator derives from the inputs. */
  predicate Agree(check: Check, on: Setting) {
    forall i | 0 <= i < |check.probes| ::
      && check.probes[i].input in on.trees
      && StateDigest(on.role, on.inputs, check.probes[i].input) == Some(on.trees[check.probes[i].input])
  }

  lemma CaptureFine(ctx: Context, log: Log, lo: nat, hi: nat, k: nat, check: Check, on: Setting, earliest: nat)
    requires Healthy(ctx, log, lo, hi) && lo <= k && k + Width(check) <= hi
    requires CheckRun(ctx, log, k, check, on) && Agree(check, on) && NotBefore(log, k, hi, earliest)
    ensures var c := CaptureAt(log, k, check);
            && CaptureOk(ctx, check, c, on.role, on.inputs, earliest)
            && earliest <= c.process.started
            && ctx.observe(c.process.stdout, check.id) == Some(check.Expected(on.role))
  {
    hide Clean, InOrder, ProcessAt, EndAt, ProcessOk, NoDups, ContainersOf;
    var c := CaptureAt(log, k, check);
    var n := |check.probes|;
    StageFine(ctx, log, lo, hi, k + n);
    forall i | 0 <= i < n
      ensures ProbeOk(ctx, check.probes[i], c.probes[i], on.role, on.inputs, earliest, c.process.started)
    {
      assert ProbeRun(ctx, log, k + i, check.probes[i], on);
      StageFine(ctx, log, lo, hi, k + i);
      InTime(ctx, log, lo, hi, k + i, k + n);
    }
    OneCapture(ctx, log, lo, hi, k, check);
  }

  // ------------------------------------------------------------------------ containers

  /** Distinct containers of stages numbered from lo up to hi. */
  ghost predicate Fills(log: Log, xs: seq<string>, lo: nat, hi: nat) {
    NoDups(xs) && forall x | x in xs :: exists k: nat :: lo <= k < hi && ProcessAt(log, k).container == x
  }

  lemma NoDupsJoin(xs: seq<string>, ys: seq<string>)
    requires NoDups(xs) && NoDups(ys) && forall x | x in xs :: x !in ys
    ensures NoDups(xs + ys)
  {
    forall i, j | 0 <= i < j < |xs + ys| ensures (xs + ys)[i] != (xs + ys)[j] {
      if i < |xs| <= j {
        assert xs[i] in xs && ys[j - |xs|] in ys;
      }
    }
  }

  lemma FillsJoin(ctx: Context, log: Log, lo: nat, hi: nat, xs: seq<string>, ys: seq<string>,
                  a: nat, b: nat, c: nat, d: nat)
    requires Healthy(ctx, log, lo, hi) && lo <= a <= b <= c <= d <= hi
    requires Fills(log, xs, a, b) && Fills(log, ys, c, d)
    ensures Fills(log, xs + ys, a, d)
  {
    hide Healthy, ProcessAt;
    forall x, y | x in xs && y in ys ensures x != y {
      var i: nat :| a <= i < b && ProcessAt(log, i).container == x;
      var j: nat :| c <= j < d && ProcessAt(log, j).container == y;
      InTime(ctx, log, lo, hi, i, j);
    }
    NoDupsJoin(xs, ys);
  }

  function Boxes(processes: seq<Process>): seq<string> {
    seq(|processes|, i requires 0 <= i < |processes| => processes[i].container)
  }

  lemma ProbesFill(ctx: Context, log: Log, lo: nat, hi: nat, k: nat, n: nat)
    requires Healthy(ctx, log, lo, hi) && lo <= k && k + n <= hi
    ensures Fills(log, Boxes(ProbesAt(log, k, n)), k, k + n)
  {
    hide Healthy, ProcessAt;
    var xs := Boxes(ProbesAt(log, k, n));
    forall i, j | 0 <= i < j < |xs| ensures xs[i] != xs[j] {
      InTime(ctx, log, lo, hi, k + i, k + j);
    }
    forall x | x in xs ensures exists j: nat :: k <= j < k + n && ProcessAt(log, j).container == x {
      var i :| 0 <= i < |xs| && xs[i] == x;
      assert ProcessAt(log, k + i).container == x;
    }
  }

  lemma OneFills(log: Log, k: nat)
    ensures Fills(log, [ProcessAt(log, k).container], k, k + 1)
  {
    hide ProcessAt;
    assert k <= k < k + 1 && ProcessAt(log, k).container == ProcessAt(log, k).container;
  }

  lemma {:induction false} Count(xs: seq<string>, x: string)
    requires NoDups(xs)
    ensures multiset(xs)[x] <= 1
    decreases |xs|
  {
    if xs == [] {
    } else {
      var n := |xs| - 1;
      assert xs == xs[..n] + [xs[n]];
      Count(xs[..n], x);
      assert xs[n] !in xs[..n];
    }
  }

  /** Being free of duplicates does not depend on the order. */
  lemma Permuted(xs: seq<string>, ys: seq<string>)
    requires NoDups(xs) && multiset(xs) == multiset(ys)
    ensures NoDups(ys)
  {
    forall i, j | 0 <= i < j < |ys| ensures ys[i] != ys[j] {
      assert ys == ys[..i] + [ys[i]] + ys[i + 1..j] + [ys[j]] + ys[j + 1..];
      assert ys[i] == ys[j] ==> multiset(ys)[ys[i]] >= 2;
      Count(xs, ys[i]);
    }
  }

  lemma FillsPermuted(log: Log, xs: seq<string>, ys: seq<string>, lo: nat, hi: nat)
    requires Fills(log, xs, lo, hi) && multiset(xs) == multiset(ys)
    ensures Fills(log, ys, lo, hi)
  {
    hide ProcessAt;
    Permuted(xs, ys);
    forall y | y in ys ensures y in xs {
      assert y in multiset(ys);
    }
  }

  lemma FillsDistinct(log: Log, xs: seq<string>, lo: nat, hi: nat)
    requires Fills(log, xs, lo, hi)
    ensures NoDups(xs)
  {
  }

  lemma OneCapture(ctx: Context, log: Log, lo: nat, hi: nat, k: nat, check: Check)
    requires Healthy(ctx, log, lo, hi) && lo <= k && k + Width(check) <= hi
    ensures Fills(log, ContainersOf(CaptureAt(log, k, check)), k, k + Width(check))
    ensures NoDups(ContainersOf(CaptureAt(log, k, check)))
  {
    hide Healthy, ProcessAt, Fills;
    var c := CaptureAt(log, k, check);
    var n := |check.probes|;
    var probed := Boxes(c.probes);
    ProbesFill(ctx, log, lo, hi, k, n);
    OneFills(log, k + n);
    FillsJoin(ctx, log, lo, hi, probed, [c.process.container], k, k + n, k + n, k + n + 1);
    assert ContainersOf(c) == [c.process.container] + probed;
    FillsPermuted(log, probed + [c.process.container], ContainersOf(c), k, k + n + 1);
    FillsDistinct(log, ContainersOf(c), k, k + n + 1);
  }

  lemma {:induction false} CapturesFill(ctx: Context, log: Log, lo: nat, hi: nat, k: nat, checks: seq<Check>)
    requires Healthy(ctx, log, lo, hi) && lo <= k && k + Span(checks) <= hi
    ensures Fills(log, Containers(CapturesAt(log, k, checks)), k, k + Span(checks))
    decreases |checks|
  {
    hide Healthy, CaptureAt, ContainersOf, NoDups, ProcessAt, Width;
    var cs := CapturesAt(log, k, checks);
    if checks == [] {
      Empty();
    } else {
      var n := |checks| - 1;
      var front := checks[..n];
      CapturesFill(ctx, log, lo, hi, k, front);
      OneCapture(ctx, log, lo, hi, k + Span(front), checks[n]);
      assert cs[..n] == CapturesAt(log, k, front);
      FillsJoin(ctx, log, lo, hi, Containers(cs[..n]), ContainersOf(cs[n]),
                k, k + Span(front), k + Span(front), k + Span(checks));
    }
  }

  lemma Empty()
    ensures NoDups([])
  {
  }

  lemma {:induction false} ContainersConcat(xs: seq<Capture>, ys: seq<Capture>)
    ensures Containers(xs + ys) == Containers(xs) + Containers(ys)
    decreases |ys|
  {
    hide ContainersOf;
    if ys == [] {
      assert xs + ys == xs;
    } else {
      var n := |ys| - 1;
      assert (xs + ys)[..|xs + ys| - 1] == xs + ys[..n];
      ContainersConcat(xs, ys[..n]);
    }
  }

  // ------------------------------------------------------------------------ membership

  lemma SameId(checks: seq<Check>, c: Check, d: Check)
    requires ProfileOk(checks) && c in checks && d in checks && c.id == d.id
    ensures c == d
  {
    hide InPhase, RolesPresent, Fitting;
    var i :| 0 <= i < |checks| && checks[i] == c;
    var j :| 0 <= j < |checks| && checks[j] == d;
    assert Ids(checks)[i] == Ids(checks)[j];
  }

  lemma {:induction false} CapturesIndexed(ctx: Context, log: Log, k: nat, checks: seq<Check>, on: Setting, i: nat)
    requires i < |checks|
    ensures Span(checks[..i]) + Width(checks[i]) <= Span(checks)
    ensures CapturesAt(log, k, checks)[i] == CaptureAt(log, k + Span(checks[..i]), checks[i])
    ensures PhaseRun(ctx, log, k, checks, on) ==> CheckRun(ctx, log, k + Span(checks[..i]), checks[i], on)
    decreases |checks|
  {
    hide CaptureAt, Width, CheckRun;
    var n := |checks| - 1;
    if i == n {
    } else {
      CapturesIndexed(ctx, log, k, checks[..n], on, i);
      assert checks[..n][..i] == checks[..i];
    }
  }

  lemma {:induction false} PhaseIds(checks: seq<Check>, phase: Phase)
    requires NoDups(Ids(checks))
    ensures NoDups(Ids(InPhase(checks, phase)))
    decreases |checks|
  {
    if checks == [] {
    } else {
      var n := |checks| - 1;
      var front := InPhase(checks[..n], phase);
      assert Ids(checks[..n]) == Ids(checks)[..n];
      PhaseIds(checks[..n], phase);
      InPhaseMembers(checks[..n], phase);
      assert Ids(front + [checks[n]]) == Ids(front) + [checks[n].id];
      assert front + [] == front;
      forall i | 0 <= i < |front| ensures front[i].id != checks[n].id {
        assert front[i] in checks[..n];
        var j :| 0 <= j < n && checks[j] == front[i];
        assert Ids(checks)[j] != Ids(checks)[n];
      }
    }
  }

  /** Where a recorded capture comes from. */
  lemma Located(ctx: Context, log: Log, k: nat, phase: Phase, on: Setting, c: Capture) returns (check: Check, at: nat)
    requires c in CapturesAt(log, k, InPhase(ctx.checks, phase))
    ensures check in ctx.checks && check.phase == phase && check.id == c.id
    ensures c == CaptureAt(log, at, check)
    ensures k <= at && at + Width(check) <= k + Span(InPhase(ctx.checks, phase))
    ensures PhaseRun(ctx, log, k, InPhase(ctx.checks, phase), on) ==> CheckRun(ctx, log, at, check, on)
  {
    hide InPhase, Span, CapturesAt, Width, CheckRun, PhaseRun;
    var checks := InPhase(ctx.checks, phase);
    var cs := CapturesAt(log, k, checks);
    var i :| 0 <= i < |cs| && cs[i] == c;
    CapturesIndexed(ctx, log, k, checks, on, i);
    InPhaseMembers(ctx.checks, phase);
    check, at := checks[i], k + Span(checks[..i]);
    assert check in checks;
  }

  lemma PhaseCaptureIds(ctx: Context, log: Log, k: nat, checks: seq<Check>)
    ensures CaptureIds(CapturesAt(log, k, checks)) == Ids(checks)
  {
    hide Span, CapturesAt, CheckRun, PhaseRun;
    forall i | 0 <= i < |checks| ensures CapturesAt(log, k, checks)[i].id == checks[i].id {
      CapturesIndexed(ctx, log, k, checks, PreSetting(ctx, Old), i);
    }
  }

  lemma IdSet(cs: seq<Capture>, x: string)
    ensures x in (set c | c in cs :: c.id) <==> x in CaptureIds(cs)
  {
    if x in CaptureIds(cs) {
      var i :| 0 <= i < |cs| && CaptureIds(cs)[i] == x;
      assert cs[i] in cs;
    }
    if c :| c in cs && c.id == x {
      var i :| 0 <= i < |cs| && cs[i] == c;
      assert CaptureIds(cs)[i] == x;
    }
  }

  lemma IdsIn(checks: seq<Check>, x: string)
    ensures x in Ids(checks) <==> exists c :: c in checks && c.id == x
  {
    if x in Ids(checks) {
      var i :| 0 <= i < |checks| && Ids(checks)[i] == x;
      assert checks[i] in checks;
    }
    if c :| c in checks && c.id == x {
      var i :| 0 <= i < |checks| && checks[i] == c;
      assert Ids(checks)[i] == x;
    }
  }

  lemma RoleMembership(ctx: Context, pre: seq<Capture>, post: seq<Capture>)
    requires ProfileOk(ctx.checks)
    requires CaptureIds(pre) == Ids(InPhase(ctx.checks, Pre)) && CaptureIds(post) == Ids(InPhase(ctx.checks, Post))
    ensures Membership(pre + post, RoleCheckIds(ctx))
  {
    hide InPhase, RolesPresent, Fitting, Ids, CaptureIds;
    var before, after := InPhase(ctx.checks, Pre), InPhase(ctx.checks, Post);
    PhaseIds(ctx.checks, Pre);
    PhaseIds(ctx.checks, Post);
    InPhaseMembers(ctx.checks, Pre);
    InPhaseMembers(ctx.checks, Post);
    IdsConcat(pre, post);
    forall x | x in Ids(before) ensures x !in Ids(after) {
      IdsIn(before, x);
      IdsIn(after, x);
      var c :| c in before && c.id == x;
      if x in Ids(after) {
        var d :| d in after && d.id == x;
        SameId(ctx.checks, c, d);
      }
    }
    NoDupsJoin(Ids(before), Ids(after));
    forall x ensures x in (set c | c in pre + post :: c.id) <==> x in RoleCheckIds(ctx) {
      IdSet(pre + post, x);
      IdsIn(before, x);
      IdsIn(after, x);
      RoleIds(ctx, x);
    }
  }

  lemma IdsConcat(xs: seq<Capture>, ys: seq<Capture>)
    ensures CaptureIds(xs + ys) == CaptureIds(xs) + CaptureIds(ys)
  {
  }

  lemma RoleIds(ctx: Context, x: string)
    ensures x in RoleCheckIds(ctx) <==>
              || (exists c :: c in InPhase(ctx.checks, Pre) && c.id == x)
              || (exists c :: c in InPhase(ctx.checks, Post) && c.id == x)
  {
    hide InPhase;
    InPhaseMembers(ctx.checks, Pre);
    InPhaseMembers(ctx.checks, Post);
    if x in RoleCheckIds(ctx) {
      var c :| c in ctx.checks && !c.phase.Paired? && c.id == x;
      assert if c.phase.Pre? then c in InPhase(ctx.checks, Pre) else c in InPhase(ctx.checks, Post);
    }
  }

  // ----------------------------------------------------------------------- one role

  lemma ProbeFits(checks: seq<Check>, check: Check, j: nat)
    requires Fitting(checks) && check in checks && j < |check.probes|
    ensures var input := check.probes[j].input;
            if check.phase.Paired? then !input.Current? else input.Initial? || input.Current?
  {
    var i :| 0 <= i < |checks| && checks[i] == check;
    assert checks[i].probes[j] == check.probes[j];
  }

  lemma RoleAgrees(ctx: Context, check: Check, role: StageRole, final: string)
    requires Fitting(ctx.checks) && check in ctx.checks
    ensures check.phase.Pre? ==> Agree(check, PreSetting(ctx, role))
    ensures check.phase.Post? ==> Agree(check, PostSetting(ctx, role, final))
  {
    hide Fitting;
    forall j | 0 <= j < |check.probes| {
      ProbeFits(ctx.checks, check, j);
    }
  }

  lemma PairAgrees(ctx: Context, check: Check, oldFinal: string, newFinal: string, oldRecord: string, newRecord: string)
    requires Fitting(ctx.checks) && check in ctx.checks && check.phase.Paired?
    ensures Agree(check, PairSetting(ctx, oldFinal, newFinal, oldRecord, newRecord))
  {
    hide Fitting;
    forall j | 0 <= j < |check.probes| {
      ProbeFits(ctx.checks, check, j);
    }
  }

  lemma ProfileParts(checks: seq<Check>)
    requires ProfileOk(checks)
    ensures Fitting(checks) && NoDups(Ids(checks)) && RolesPresent(checks)
  {
  }

  /** A pre check of a role is done properly, before any later stage of the pair starts. */
  lemma PreFine(ctx: Context, log: Log, lo: nat, hi: nat, from: nat, role: StageRole, k: nat, c: Capture)
    requires Healthy(ctx, log, lo, hi) && ProfileOk(ctx.checks)
    requires PhaseRun(ctx, log, from, InPhase(ctx.checks, Pre), PreSetting(ctx, role))
    requires lo <= from && from + PreSpan(ctx) <= k < hi && c in PreAt(ctx, log, from)
    ensures c.process.finished <= ProcessAt(log, k).started
    ensures forall check | check in ctx.checks && check.id == c.id ::
              && check.phase.Pre? && CaptureOk(ctx, check, c, role, [ctx.initial], 0)
              && ctx.observe(c.process.stdout, check.id) == Some(check.Expected(role))
  {
    hide Healthy, ProfileOk, CapturesAt, InPhase, Span, ProcessAt, CaptureOk, CheckRun, PhaseRun, Agree;
    var check, at := Located(ctx, log, from, Pre, PreSetting(ctx, role), c);
    ProfileParts(ctx.checks);
    RoleAgrees(ctx, check, role, "");
    CaptureFine(ctx, log, lo, hi, at, check, PreSetting(ctx, role), 0);
    InTime(ctx, log, lo, hi, at + |check.probes|, k);
    forall other | other in ctx.checks && other.id == c.id ensures other == check {
      SameId(ctx.checks, check, other);
    }
  }

  lemma PostFine(ctx: Context, log: Log, lo: nat, hi: nat, k: nat, role: StageRole, c: Capture)
    requires Healthy(ctx, log, lo, hi) && ProfileOk(ctx.checks) && RoleRun(ctx, log, k, role)
    requires lo <= k && k + 1 + PostSpan(ctx) <= hi && c in PostAt(ctx, log, k + 1)
    ensures var tree := TreeAt(log, k);
            && tree.1 <= c.process.started
            && forall check | check in ctx.checks && check.id == c.id ::
                 && check.phase.Post? && CaptureOk(ctx, check, c, role, [ctx.initial, tree.0], tree.1)
                 && ctx.observe(c.process.stdout, check.id) == Some(check.Expected(role))
  {
    hide Healthy, ProfileOk, CapturesAt, InPhase, Span, ProcessAt, TreeAt, CaptureOk, CheckRun, PhaseRun, Agree,
      NotBefore;
    var tree := TreeAt(log, k);
    var on := PostSetting(ctx, role, tree.0);
    var check, at := Located(ctx, log, k + 1, Post, on, c);
    ProfileParts(ctx.checks);
    RoleAgrees(ctx, check, role, tree.0);
    AfterStage(ctx, log, lo, hi, k, at);
    CaptureFine(ctx, log, lo, hi, at, check, on, tree.1);
    forall other | other in ctx.checks && other.id == c.id ensures other == check {
      SameId(ctx.checks, check, other);
    }
  }

  /** The stages of one role: its pre checks from `from`, its executor at k, its post checks after it. */
  predicate RoleStages(ctx: Context, log: Log, from: nat, k: nat, role: StageRole, lo: nat, hi: nat) {
    && lo <= from && from + PreSpan(ctx) <= k && k + 1 + PostSpan(ctx) <= hi
    && PhaseRun(ctx, log, from, InPhase(ctx.checks, Pre), PreSetting(ctx, role))
    && RoleRun(ctx, log, k, role)
  }

  /** The record of a healthy role is valid on its own. */
  lemma RoleValid(ctx: Context, log: Log, from: nat, k: nat, role: StageRole, lo: nat, hi: nat)
    requires Healthy(ctx, log, lo, hi) && ContextOk(ctx) && RoleStages(ctx, log, from, k, role, lo, hi)
    ensures RunValid(ctx, RoleAt(ctx, log, k, role, PreAt(ctx, log, from)))
  {
    hide Healthy, ProfileOk, InPhase, Span, ProcessAt, TreeAt, CaptureOk, PreSpan, PostSpan, Membership, RoleCheckIds,
      PreAt, PostAt, RunReadable, PhaseRun, RoleRun;
    var pre := PreAt(ctx, log, from);
    var run := RoleAt(ctx, log, k, role, pre);
    RoleReadable(ctx, log, from, k, role, lo, hi);
    forall check, c | check in ctx.checks && !check.phase.Paired? && c in run.captures && c.id == check.id
      ensures TraceOk(ctx, run, check, c)
    {
      if c in pre {
        PreFine(ctx, log, lo, hi, from, role, k, c);
      } else {
        PostFine(ctx, log, lo, hi, k, role, c);
      }
    }
  }

  /** An executor that went well left what its run has to record. */
  lemma ExecutorFine(ctx: Context, log: Log, lo: nat, hi: nat, k: nat, role: StageRole)
    requires Clean(ctx, log, lo, hi) && lo <= k < hi && ExecutorRun(ctx, log, k, role)
    ensures ProcessOk(ctx.limits, ProcessAt(log, k), ExecutorSubject(ctx, role), false)
    ensures ProcessAt(log, k).finished <= TreeAt(log, k).1
    ensures ctx.sound(TreeAt(log, k).0) && ctx.inScope(ctx.initial, TreeAt(log, k).0)
    ensures log[k].outcome.Ran? && log[k].outcome.captured == Some(TreeAt(log, k))
    ensures log[k].outcome.process == ProcessAt(log, k)
  {
    hide ProcessOk;
    assert StageOk(ctx, log[k]);
  }

  lemma RoleReadable(ctx: Context, log: Log, from: nat, k: nat, role: StageRole, lo: nat, hi: nat)
    requires Healthy(ctx, log, lo, hi) && ContextOk(ctx) && RoleStages(ctx, log, from, k, role, lo, hi)
    ensures RunReadable(ctx, RoleAt(ctx, log, k, role, PreAt(ctx, log, from)))
  {
    hide Clean, InOrder, ProfileOk, InPhase, Span, ProcessAt, TreeAt, Membership, RoleCheckIds, ProcessOk, CapturesAt,
      Containers, NoDups, PhaseRun;
    ExecutorFine(ctx, log, lo, hi, k, role);
    PhaseCaptureIds(ctx, log, from, InPhase(ctx.checks, Pre));
    PhaseCaptureIds(ctx, log, k + 1, InPhase(ctx.checks, Post));
    RoleMembership(ctx, PreAt(ctx, log, from), PostAt(ctx, log, k + 1));
    RoleContainers(ctx, log, from, k, role, lo, hi);
  }

  lemma RoleContainers(ctx: Context, log: Log, from: nat, k: nat, role: StageRole, lo: nat, hi: nat)
    requires Healthy(ctx, log, lo, hi) && lo <= from && from + PreSpan(ctx) <= k && k + 1 + PostSpan(ctx) <= hi
    ensures var run := RoleAt(ctx, log, k, role, PreAt(ctx, log, from));
            NoDups(Containers(run.captures) + [run.executor.container])
  {
    hide Healthy, InPhase, Span, ProcessAt, TreeAt, CapturesAt, Containers, NoDups;
    var run := RoleAt(ctx, log, k, role, PreAt(ctx, log, from));
    var pre, post := PreAt(ctx, log, from), PostAt(ctx, log, k + 1);
    var x := [run.executor.container];
    CapturesFill(ctx, log, lo, hi, from, InPhase(ctx.checks, Pre));
    ExecutedFills(ctx, log, lo, hi, k);
    FillsJoin(ctx, log, lo, hi, Containers(pre), x + Containers(post), from, from + PreSpan(ctx), k,
              k + 1 + PostSpan(ctx));
    ContainersConcat(pre, post);
    Permuted(Containers(pre) + (x + Containers(post)), Containers(run.captures) + x);
  }

  /** The executor and the post checks after it use the containers of their own stages. */
  lemma ExecutedFills(ctx: Context, log: Log, lo: nat, hi: nat, k: nat)
    requires Healthy(ctx, log, lo, hi) && lo <= k && k + 1 + PostSpan(ctx) <= hi
    ensures Fills(log, [ProcessAt(log, k).container] + Containers(PostAt(ctx, log, k + 1)), k, k + 1 + PostSpan(ctx))
  {
    hide Healthy, InPhase, Span, ProcessAt, CapturesAt, Containers, Fills;
    OneFills(log, k);
    CapturesFill(ctx, log, lo, hi, k + 1, InPhase(ctx.checks, Post));
    FillsJoin(ctx, log, lo, hi, [ProcessAt(log, k).container], Containers(PostAt(ctx, log, k + 1)),
              k, k + 1, k + 1, k + 1 + PostSpan(ctx));
  }

  // -------------------------------------------------------------------------- the pair

  /** The process is that of a stage numbered from lo up to k. */
  ghost predicate MadeBetween(log: Log, p: Process, lo: nat, k: nat) {
    exists j: nat :: lo <= j < k && p == ProcessAt(log, j)
  }

  ghost predicate DoneBetween(log: Log, captures: seq<Capture>, lo: nat, k: nat) {
    forall c | c in captures :: MadeBetween(log, c.process, lo, k)
  }

  lemma PhaseDone(ctx: Context, log: Log, from: nat, phase: Phase, lo: nat, k: nat)
    requires lo <= from && from + Span(InPhase(ctx.checks, phase)) <= k
    ensures DoneBetween(log, CapturesAt(log, from, InPhase(ctx.checks, phase)), lo, k)
  {
    hide CapturesAt, InPhase, Span, ProcessAt, CheckRun, PhaseRun;
    var cs := CapturesAt(log, from, InPhase(ctx.checks, phase));
    forall c | c in cs ensures MadeBetween(log, c.process, lo, k) {
      var check, at := Located(ctx, log, from, phase, PreSetting(ctx, Old), c);
      assert c.process == ProcessAt(log, at + |check.probes|);
    }
  }

  lemma LatestBound(ctx: Context, log: Log, captures: seq<Capture>, lo: nat, hi: nat, k: nat)
    requires Healthy(ctx, log, lo, hi) && DoneBetween(log, captures, lo, k)
    ensures NotBefore(log, k, hi, Latest(captures))
  {
    hide Healthy, ProcessAt;
    if captures != [] {
      var last := Latest(captures);
      var c :| c in captures && c.process.finished == last;
      assert MadeBetween(log, c.process, lo, k);
      var j: nat :| lo <= j < k && c.process == ProcessAt(log, j);
      AfterStage(ctx, log, lo, hi, j, k);
    }
  }

  /** Among the captures of both roles, the ones of pre checks are exactly those made first. */
  lemma PreCapturesFirst(ctx: Context, log: Log, base: nat, oldRecord: string, newRecord: string)
    requires Healthy(ctx, log, base, PairEnd(ctx, base)) && ContextOk(ctx)
             && PairRun(ctx, log, base, oldRecord, newRecord)
    ensures DoneBetween(log, PreCaptures(ctx, OldAt(ctx, log, base).captures + NewAt(ctx, log, base).captures),
                        base, OldExecutor(ctx, base))
  {
    hide Healthy, ProfileOk, CapturesAt, InPhase, Span, ProcessAt, TreeAt, PreAt, PostAt, CaptureOk, DoneBetween,
      PreSpan, PostSpan,
      PairSpan, PhaseRun, RoleRun;
    var old', new' := OldAt(ctx, log, base), NewAt(ctx, log, base);
    var k, k', end := OldExecutor(ctx, base), NewExecutor(ctx, base), PairEnd(ctx, base);
    var oldPre, newPre := PreAt(ctx, log, base), PreAt(ctx, log, base + PreSpan(ctx));
    var pre := PreCaptures(ctx, old'.captures + new'.captures);
    forall c | c in pre ensures c in oldPre + newPre {
      var check :| check in ctx.checks && check.phase.Pre? && check.id == c.id;
      if c in PostAt(ctx, log, k + 1) {
        PostFine(ctx, log, base, end, k, Old, c);
      }
      if c in PostAt(ctx, log, k' + 1) {
        PostFine(ctx, log, base, end, k', New, c);
      }
    }
    PreDone(ctx, log, base, base, k);
    PreDone(ctx, log, base + PreSpan(ctx), base, k);
    DoneSubset(log, oldPre, newPre, pre, base, k);
  }

  lemma PreDone(ctx: Context, log: Log, from: nat, lo: nat, k: nat)
    requires lo <= from && from + PreSpan(ctx) <= k
    ensures DoneBetween(log, PreAt(ctx, log, from), lo, k)
  {
    hide DoneBetween, CapturesAt, InPhase, Span;
    PhaseDone(ctx, log, from, Pre, lo, k);
  }

  lemma RoleDone(ctx: Context, log: Log, from: nat, k: nat, role: StageRole, lo: nat, end: nat)
    requires lo <= from && from + PreSpan(ctx) <= k && k + 1 + PostSpan(ctx) <= end
    ensures DoneBetween(log, RoleAt(ctx, log, k, role, PreAt(ctx, log, from)).captures, lo, end)
  {
    hide DoneBetween, CapturesAt, InPhase, Span, TreeAt, ProcessAt;
    PreDone(ctx, log, from, lo, end);
    PhaseDone(ctx, log, k + 1, Post, lo, end);
    var pre, post := PreAt(ctx, log, from), PostAt(ctx, log, k + 1);
    DoneSubset(log, pre, post, pre + post, lo, end);
  }

  lemma DoneSubset(log: Log, xs: seq<Capture>, ys: seq<Capture>, zs: seq<Capture>, lo: nat, k: nat)
    requires DoneBetween(log, xs, lo, k) && DoneBetween(log, ys, lo, k) && forall z | z in zs :: z in xs + ys
    ensures DoneBetween(log, zs, lo, k)
  {
    hide MadeBetween;
  }

  /** All containers of both roles and the pair are distinct: taken in the order the stages ran. */
  lemma PairContainers(ctx: Context, log: Log, base: nat)
    requires Healthy(ctx, log, base, PairEnd(ctx, base))
    ensures var old', new' := OldAt(ctx, log, base), NewAt(ctx, log, base);
            NoDups([old'.executor.container, new'.executor.container]
                   + Containers(old'.captures + new'.captures + PairedAt(ctx, log, base)))
  {
    hide Healthy, InPhase, Span, ProcessAt, TreeAt, CapturesAt, Containers, NoDups, PreSpan, PostSpan, PairSpan,
      Fills, PostAt, PreAt, PairedAt;
    var old', new' := OldAt(ctx, log, base), NewAt(ctx, log, base);
    var p, q := PreSpan(ctx), PostSpan(ctx);
    var k, k', f, end := OldExecutor(ctx, base), NewExecutor(ctx, base), PairStart(ctx, base), PairEnd(ctx, base);
    var oldPre, newPre := PreAt(ctx, log, base), PreAt(ctx, log, base + p);
    var oldPost, newPost := PostAt(ctx, log, k + 1), PostAt(ctx, log, k' + 1);
    var paired := PairedAt(ctx, log, base);
    var x, y := [old'.executor.container], [new'.executor.container];
    SegmentsFill(ctx, log, base);
    var a := Containers(oldPre) + Containers(newPre);
    var b := (x + Containers(oldPost)) + (y + Containers(newPost));
    FillsJoin(ctx, log, base, end, Containers(oldPre), Containers(newPre), base, base + p, base + p, k);
    FillsJoin(ctx, log, base, end, x + Containers(oldPost), y + Containers(newPost), k, k', k', f);
    FillsJoin(ctx, log, base, end, a, b, base, k, k, f);
    FillsJoin(ctx, log, base, end, a + b, Containers(paired), base, f, f, end);
    FillsDistinct(log, a + b + Containers(paired), base, end);
    ContainersConcat(oldPre, oldPost);
    ContainersConcat(newPre, newPost);
    ContainersConcat(old'.captures, new'.captures);
    ContainersConcat(old'.captures + new'.captures, paired);
    Regroup(x, y, Containers(oldPre), Containers(newPre), Containers(oldPost), Containers(newPost), Containers(paired));
    assert [old'.executor.container, new'.executor.container] == x + y;
    Permuted(a + b + Containers(paired), x + y + Containers(old'.captures + new'.captures + paired));
  }

  lemma SegmentsFill(ctx: Context, log: Log, base: nat)
    requires Healthy(ctx, log, base, PairEnd(ctx, base))
    ensures var p, q := PreSpan(ctx), PostSpan(ctx);
            var k, k' := OldExecutor(ctx, base), NewExecutor(ctx, base);
            && Fills(log, Containers(PreAt(ctx, log, base)), base, base + p)
            && Fills(log, Containers(PreAt(ctx, log, base + p)), base + p, k)
            && Fills(log, [ProcessAt(log, k).container] + Containers(PostAt(ctx, log, k + 1)), k, k')
            && Fills(log, [ProcessAt(log, k').container] + Containers(PostAt(ctx, log, k' + 1)), k',
                     PairStart(ctx, base))
            && Fills(log, Containers(PairedAt(ctx, log, base)), PairStart(ctx, base), PairEnd(ctx, base))
  {
    hide Healthy, InPhase, Span, ProcessAt, CapturesAt, Containers, Fills;
    var end := PairEnd(ctx, base);
    CapturesFill(ctx, log, base, end, base, InPhase(ctx.checks, Pre));
    CapturesFill(ctx, log, base, end, base + PreSpan(ctx), InPhase(ctx.checks, Pre));
    ExecutedFills(ctx, log, base, end, OldExecutor(ctx, base));
    ExecutedFills(ctx, log, base, end, NewExecutor(ctx, base));
    CapturesFill(ctx, log, base, end, PairStart(ctx, base), InPhase(ctx.checks, Paired));
  }

  lemma Regroup(x: seq<string>, y: seq<string>, a: seq<string>, b: seq<string>, c: seq<string>, d: seq<string>,
                e: seq<string>)
    ensures multiset(a + b + ((x + c) + (y + d)) + e) == multiset(x + y + (a + c + (b + d) + e))
  {
  }

  /** Each pair check is done properly, after everything in both roles. */
  lemma PairedFine(ctx: Context, log: Log, base: nat, oldRecord: string, newRecord: string, earliest: nat, i: nat)
    requires Healthy(ctx, log, base, PairEnd(ctx, base)) && ContextOk(ctx)
             && PairRun(ctx, log, base, oldRecord, newRecord)
    requires i < |InPhase(ctx.checks, Paired)|
    requires NotBefore(log, PairStart(ctx, base), PairEnd(ctx, base), earliest)
    ensures var old', new' := OldAt(ctx, log, base), NewAt(ctx, log, base);
            PairTraceOk(ctx, InPhase(ctx.checks, Paired)[i], PairedAt(ctx, log, base)[i],
                        PairInputs(ctx, old', new', oldRecord, newRecord), earliest)
  {
    hide Healthy, ProfileOk, CapturesAt, InPhase, Span, ProcessAt, CaptureOk, Agree, OldAt, NewAt, PreSpan, PostSpan,
      Width,
      CheckRun, PhaseRun, RoleRun, PreRun;
    var old', new' := OldAt(ctx, log, base), NewAt(ctx, log, base);
    var on := PairSetting(ctx, old'.final, new'.final, oldRecord, newRecord);
    var checks := InPhase(ctx.checks, Paired);
    var f := PairStart(ctx, base);
    InPhaseMembers(ctx.checks, Paired);
    assert checks[i] in checks;
    CapturesIndexed(ctx, log, f, checks, on, i);
    ProfileParts(ctx.checks);
    PairAgrees(ctx, checks[i], old'.final, new'.final, oldRecord, newRecord);
    CaptureFine(ctx, log, base, PairEnd(ctx, base), f + Span(checks[..i]), checks[i], on, earliest);
  }

  function IdsOf(checks: seq<Check>): set<string> {
    set c | c in checks :: c.id
  }

  lemma PairedMembership(ctx: Context, log: Log, base: nat)
    requires ProfileOk(ctx.checks)
    ensures Membership(PairedAt(ctx, log, base), IdsOf(InPhase(ctx.checks, Paired)))
  {
    hide InPhase, Span, CapturesAt, RolesPresent, Fitting, Ids, CaptureIds;
    var checks := InPhase(ctx.checks, Paired);
    var paired := PairedAt(ctx, log, base);
    PhaseIds(ctx.checks, Paired);
    PhaseCaptureIds(ctx, log, PairStart(ctx, base), checks);
    forall x: string ensures x in (set c | c in paired :: c.id) <==> x in IdsOf(checks) {
      IdSet(paired, x);
      IdsIn(checks, x);
    }
  }

  /** The executors start after every pre check, and the pair checks after every role check. */
  lemma PairTimes(ctx: Context, log: Log, base: nat, oldRecord: string, newRecord: string)
    requires Healthy(ctx, log, base, PairEnd(ctx, base)) && ContextOk(ctx)
             && PairRun(ctx, log, base, oldRecord, newRecord)
    ensures var old', new' := OldAt(ctx, log, base), NewAt(ctx, log, base);
            var roleCaptures := old'.captures + new'.captures;
            && Latest(PreCaptures(ctx, roleCaptures)) <= old'.executor.started
            && Latest(PreCaptures(ctx, roleCaptures)) <= new'.executor.started
            && NotBefore(log, PairStart(ctx, base), PairEnd(ctx, base), Latest(roleCaptures))
  {
    hide Healthy, ContextOk, ProcessAt, TreeAt, PreAt, PostAt, DoneBetween, PreSpan, PostSpan, PairSpan, Latest,
      PreCaptures, PairRun;
    var old', new' := OldAt(ctx, log, base), NewAt(ctx, log, base);
    var k, k', f, end := OldExecutor(ctx, base), NewExecutor(ctx, base), PairStart(ctx, base), PairEnd(ctx, base);
    var roleCaptures := old'.captures + new'.captures;
    PreCapturesFirst(ctx, log, base, oldRecord, newRecord);
    LatestBound(ctx, log, PreCaptures(ctx, roleCaptures), base, end, k);
    RoleDone(ctx, log, base, k, Old, base, f);
    RoleDone(ctx, log, base + PreSpan(ctx), k', New, base, f);
    DoneSubset(log, old'.captures, new'.captures, roleCaptures, base, f);
    LatestBound(ctx, log, roleCaptures, base, end, f);
  }

  lemma RolesRecorded(ctx: Context, log: Log, base: nat)
    requires ProfileOk(ctx.checks)
    ensures OldAt(ctx, log, base).captures + NewAt(ctx, log, base).captures != []
    ensures RolesPresent(ctx.checks)
    ensures InPhase(ctx.checks, Paired) != [] <==> HasPairCheck(ctx)
  {
    hide Span, CapturesAt, ProcessAt, TreeAt, RolesPresent, Fitting, NoDups, InPhase;
    InPhaseMembers(ctx.checks, Pre);
    InPhaseMembers(ctx.checks, Post);
    InPhaseMembers(ctx.checks, Paired);
    var paired := InPhase(ctx.checks, Paired);
    assert paired != [] ==> paired[0] in paired;
    var c :| c in ctx.checks && !c.phase.Paired?;
    assert c in InPhase(ctx.checks, Pre) || c in InPhase(ctx.checks, Post);
  }

  lemma RolesValid(ctx: Context, log: Log, base: nat, oldRecord: string, newRecord: string)
    requires Healthy(ctx, log, base, PairEnd(ctx, base)) && ContextOk(ctx)
             && PairRun(ctx, log, base, oldRecord, newRecord)
    ensures RunValid(ctx, OldAt(ctx, log, base)) && RunValid(ctx, NewAt(ctx, log, base))
    ensures ctx.inScope(ctx.initial, OldAt(ctx, log, base).final)
            && ctx.inScope(ctx.initial, NewAt(ctx, log, base).final)
  {
    hide Clean, InOrder, ContextOk, ProcessAt, TreeAt, PreAt, PostAt, PreSpan, PostSpan, PairSpan, RunValid, InPhase,
      PhaseRun;
    var end := PairEnd(ctx, base);
    ExecutorFine(ctx, log, base, end, OldExecutor(ctx, base), Old);
    ExecutorFine(ctx, log, base, end, NewExecutor(ctx, base), New);
    RoleValid(ctx, log, base, OldExecutor(ctx, base), Old, base, end);
    RoleValid(ctx, log, base + PreSpan(ctx), NewExecutor(ctx, base), New, base, end);
  }

  /**
   The evidence of a whole pair whose own stages went well is accepted by the evaluator exactly
   when the profile has a pair check.
   */
  lemma PairAccepted(ctx: Context, log: Log, base: nat, oldRecord: string, newRecord: string)
    requires Healthy(ctx, log, base, PairEnd(ctx, base)) && ContextOk(ctx)
             && PairRun(ctx, log, base, oldRecord, newRecord)
    ensures Accepted(ctx, OldAt(ctx, log, base), NewAt(ctx, log, base), PairedAt(ctx, log, base), oldRecord, newRecord)
       <==> HasPairCheck(ctx)
  {
    hide Healthy, ProfileOk, ProcessAt, TreeAt, PreAt, PostAt, PreSpan, PostSpan, Latest, PreCaptures, RunValid,
      Containers, NoDups,
      Membership, InPhase, PairTraceOk, CapturesAt, Span, RolesPresent, NotBefore, PairInputs, PairRun, HasPairCheck;
    var old', new' := OldAt(ctx, log, base), NewAt(ctx, log, base);
    RolesRecorded(ctx, log, base);
    RolesValid(ctx, log, base, oldRecord, newRecord);
    PairContainers(ctx, log, base);
    PairTimes(ctx, log, base, oldRecord, newRecord);
    PairedMembership(ctx, log, base);
    forall i | 0 <= i < |InPhase(ctx.checks, Paired)|
      ensures PairTraceOk(ctx, InPhase(ctx.checks, Paired)[i], PairedAt(ctx, log, base)[i],
                          PairInputs(ctx, old', new', oldRecord, newRecord), Latest(old'.captures + new'.captures))
    {
      PairedFine(ctx, log, base, oldRecord, newRecord, Latest(old'.captures + new'.captures), i);
    }
  }

  // ------------------------------------------------------- what the runner itself tests

  lemma PhaseObserved(ctx: Context, log: Log, lo: nat, hi: nat, from: nat, phase: Phase, on: Setting)
    requires Clean(ctx, log, lo, hi) && lo <= from && from + Span(InPhase(ctx.checks, phase)) <= hi
    requires PhaseRun(ctx, log, from, InPhase(ctx.checks, phase), on)
    ensures forall c | c in CapturesAt(log, from, InPhase(ctx.checks, phase)) ::
              exists check :: check in ctx.checks && check.phase == phase
                && Observed(ctx, c) == Some(check.Expected(on.role))
  {
    hide Clean, CapturesAt, InPhase, Span, ProcessAt, PhaseRun;
    forall c | c in CapturesAt(log, from, InPhase(ctx.checks, phase))
      ensures exists check :: check in ctx.checks && check.phase == phase && Observed(ctx,
            c) == Some(check.Expected(on.role))
    {
      var check, at := Located(ctx, log, from, phase, on, c);
      StageFine(ctx, log, lo, hi, at + |check.probes|);
    }
  }

  lemma PreCleared(ctx: Context, log: Log, base: nat)
    requires Clean(ctx, log, base, OldExecutor(ctx, base)) && ProfileOk(ctx.checks) && PreRun(ctx, log, base)
    ensures Cleared(ctx, log, base)
  {
    hide Clean, CapturesAt, InPhase, Span, Observed, RolesPresent, Fitting, NoDups, PhaseRun;
    PhaseObserved(ctx, log, base, OldExecutor(ctx, base), base, Pre, PreSetting(ctx, Old));
    PhaseObserved(ctx, log, base, OldExecutor(ctx, base), base + PreSpan(ctx), Pre, PreSetting(ctx, New));
    var oldPre, newPre := PreAt(ctx, log, base), PreAt(ctx, log, base + PreSpan(ctx));
    forall i | 0 <= i < |oldPre + newPre| ensures Observed(ctx, (oldPre + newPre)[i]) == Some(true) {
      assert (oldPre + newPre)[i] in oldPre || (oldPre + newPre)[i] in newPre;
    }
  }

  lemma RoleComplete(ctx: Context, log: Log, lo: nat, hi: nat, from: nat, k: nat, role: StageRole)
    requires Clean(ctx, log, lo, hi) && ProfileOk(ctx.checks) && RoleStages(ctx, log, from, k, role, lo, hi)
    ensures PostComplete(ctx, RoleAt(ctx, log, k, role, PreAt(ctx, log, from)).captures)
  {
    hide Clean, ProfileOk, CapturesAt, InPhase, Span, Observed, TreeAt, ProcessAt, RoleCheckIds, PhaseRun;
    PhaseCaptureIds(ctx, log, from, InPhase(ctx.checks, Pre));
    PhaseCaptureIds(ctx, log, k + 1, InPhase(ctx.checks, Post));
    RoleMembership(ctx, PreAt(ctx, log, from), PostAt(ctx, log, k + 1));
    PhaseObserved(ctx, log, lo, hi, from, Pre, PreSetting(ctx, role));
    PhaseObserved(ctx, log, lo, hi, k + 1, Post, PostSetting(ctx, role, TreeAt(log, k).0));
  }
}
