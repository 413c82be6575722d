/**
 What stages leave behind: a container that could not be removed, or a process of which it is not
 certain that it ended.  A runner that has left anything behind is uncertain and has to stop.
 */
module TwinDoubt {
  import opened Common
  import opened TwinEvaluation
  import opened TwinLog

  predicate LeavesDoubt(o: Outcome) {
    o.retained || (o.Ran? && !o.process.terminated)
  }

  /** Some stage numbered from lo up to hi left something behind. */
  predicate Doubt(log: Log, lo: nat, hi: nat) {
    exists i :: lo <= i < hi && i < |log| && LeavesDoubt(log[i].outcome)
  }

  predicate Raises(o: Outcome, blocker: string) {
    o.Ran? && blocker in o.blockers
  }

  /** The stages from lo on made the runner uncertain exactly if one left doubt, and it keeps all their blockers. */
  ghost predicate Tallied(log: Log, lo: nat, before: bool, after: bool, blockers: seq<string>) {
    && after == (before || Doubt(log, lo, |log|))
    && forall i, b | lo <= i < |log| && Raises(log[i].outcome, b) :: b in blockers
  }

  predicate AllRan(log: Log, lo: nat) {
    forall i | lo <= i < |log| :: log[i].outcome.Ran?
  }

  /** The stages numbered from lo up to hi all ran and raised nothing. */
  predicate Quiet(log: Log, lo: nat, hi: nat) {
    hi <= |log| && forall i | lo <= i < hi :: log[i].outcome.Ran? && log[i].outcome.blockers == []
  }

  /**
   After an executor a stage is started only if nothing up to that executor left doubt, the new
   executor only if nothing before it did, and a pair check only if no stage of a role did.
   */
  ghost predicate Careful(log: Log, lo: nat, hi: nat, uncertain: bool) {
    && (forall k | lo <= k && k + 1 < hi && k + 1 < |log| && log[k].what.Executing? ::
          !uncertain && !Doubt(log, lo, k + 1))
    && (forall i | lo <= i < hi && i < |log| && log[i].what.Executing? && log[i].subject.role.New? ::
          !uncertain && !Doubt(log, lo, i))
    && (forall i, j | lo <= i < hi && lo <= j < hi && i < |log| && j < |log|
                   && log[i].subject.role.Both? && !log[j].subject.role.Both? ::
          !uncertain && !LeavesDoubt(log[j].outcome))
  }

  // ------------------------------------------------------------------------- growing logs

  lemma SameStages(before: Log, after: Log)
    requires before <= after
    ensures forall i | 0 <= i < |before| :: after[i] == before[i]
  {
    assert before == after[..|before|];
  }

  lemma DoubtKept(before: Log, after: Log, lo: nat, hi: nat)
    requires before <= after && hi <= |before|
    ensures Doubt(after, lo, hi) <==> Doubt(before, lo, hi)
  {
    SameStages(before, after);
  }

  lemma DoubtParts(log: Log, lo: nat, mid: nat, hi: nat)
    requires lo <= mid <= hi
    ensures Doubt(log, lo, hi) <==> Doubt(log, lo, mid) || Doubt(log, mid, hi)
  {
  }

  lemma TallyNone(log: Log, uncertain: bool, blockers: seq<string>)
    ensures Tallied(log, |log|, uncertain, uncertain, blockers) && AllRan(log, |log|)
  {
  }

  lemma StillIn(blockers: seq<string>, more: seq<string>, b: string)
    requires blockers <= more && b in blockers
    ensures b in more
  {
    assert blockers == more[..|blockers|];
  }

  lemma TallyMore(log: Log, lo: nat, before: bool, after: bool, blockers: seq<string>, more: seq<string>)
    requires Tallied(log, lo, before, after, blockers) && blockers <= more
    ensures Tallied(log, lo, before, after, more)
  {
    forall i, b | lo <= i < |log| && Raises(log[i].outcome, b) ensures b in more {
      StillIn(blockers, more, b);
    }
  }

  lemma TallyJoined(before: Log, after: Log, lo: nat, u: bool, u': bool, u'': bool, bs: seq<string>, bs': seq<string>)
    requires before <= after && lo <= |before| && bs <= bs'
    requires Tallied(before, lo, u, u', bs) && Tallied(after, |before|, u', u'', bs')
    ensures Tallied(after, lo, u, u'', bs')
    ensures AllRan(before, lo) && AllRan(after, |before|) ==> AllRan(after, lo)
  {
    hide Doubt;
    SameStages(before, after);
    DoubtKept(before, after, lo, |before|);
    DoubtParts(after, lo, |before|, |after|);
    forall i, b | lo <= i < |after| && Raises(after[i].outcome, b) ensures b in bs' {
      if i < |before| {
        assert Raises(before[i].outcome, b);
        StillIn(bs, bs', b);
      }
    }
  }

  lemma TallyStage(log: Log, what: Invocation, s: Subject, o: Outcome, u: bool, bs: seq<string>)
    ensures Tallied(log + [StageRecord(what, s, o)], |log|, u, u || LeavesDoubt(o),
                    bs + (if o.Ran? then o.blockers else []))
  {
    var after := log + [StageRecord(what, s, o)];
    assert after[|log|].outcome == o;
    assert Doubt(after, |log|, |after|) <==> LeavesDoubt(o);
  }

  /** A runner without blockers heard nothing from the stages that ran. */
  lemma QuietSoFar(log: Log, lo: nat, before: bool, after: bool, bs: seq<string>)
    requires Tallied(log, lo, before, after, bs) && AllRan(log, lo) && bs == []
    ensures Quiet(log, lo, |log|)
  {
    forall i | lo <= i < |log| ensures log[i].outcome.Ran? && log[i].outcome.blockers == [] {
      Silent(log[i].outcome, bs);
    }
  }

  lemma Silent(o: Outcome, bs: seq<string>)
    requires o.Ran? && bs == [] && forall b | Raises(o, b) :: b in bs
    ensures o.blockers == []
  {
    if o.blockers != [] {
      assert Raises(o, o.blockers[0]);
    }
  }

  lemma QuietKept(before: Log, after: Log, lo: nat, hi: nat)
    requires before <= after && Quiet(before, lo, hi)
    ensures Quiet(after, lo, hi)
  {
    SameStages(before, after);
  }

  lemma CarefulKept(before: Log, after: Log, lo: nat, hi: nat, uncertain: bool)
    requires before <= after && hi <= |before| && Careful(before, lo, hi, uncertain)
    ensures Careful(after, lo, hi, uncertain)
  {
    hide Doubt, LeavesDoubt;
    SameStages(before, after);
    forall k | lo <= k && k + 1 < hi && after[k].what.Executing? ensures !uncertain && !Doubt(after, lo, k + 1) {
      assert before[k].what.Executing?;
      DoubtKept(before, after, lo, k + 1);
    }
    forall i | lo <= i < hi && after[i].what.Executing? && after[i].subject.role.New?
      ensures !uncertain && !Doubt(after, lo, i)
    {
      DoubtKept(before, after, lo, i);
    }
  }

  // -------------------------------------------------------------------- the parts of a pair

  /** The pre checks, the old role and the new role, each started as the runner starts it. */
  lemma RolesCareful(a: Log, b: Log, c: Log, d: Log, u: bool, ub: bool, uc: bool, ud: bool, bs: seq<string>)
    requires a <= b <= c <= d
    requires Tallied(b, |a|, u, ub, bs) && Tallied(c, |b|, ub, uc, bs) && Tallied(d, |c|, uc, ud, bs)
    requires forall i | |a| <= i < |b| :: !b[i].what.Executing? && !b[i].subject.role.Both?
    requires forall i | |b| < i < |c| :: !c[i].what.Executing?
    requires forall i | |b| <= i < |c| :: c[i].subject.role.Old?
    requires forall i | |c| < i < |d| :: !d[i].what.Executing?
    requires forall i | |c| <= i < |d| :: d[i].subject.role.New?
    requires |c| > |b| + 1 ==> !ub && !Doubt(c, |b|, |b| + 1)
    requires |d| > |c| ==> !uc
    requires |d| > |c| + 1 ==> !Doubt(d, |c|, |c| + 1)
    ensures Careful(d, |a|, |d|, u)
    ensures forall i | |a| <= i < |d| && d[i].what.Executing? && d[i].subject.role.Old? :: i == |b|
  {
    hide Doubt, LeavesDoubt;
    SameStages(b, c);
    SameStages(c, d);
    DoubtKept(b, c, |a|, |b|);
    DoubtKept(c, d, |a|, |b|);
    DoubtKept(c, d, |b|, |c|);
    DoubtParts(d, |a|, |b|, |c|);
    if |c| > |b| {
      DoubtKept(c, d, |b|, |b| + 1);
      DoubtParts(d, |a|, |b|, |b| + 1);
      DoubtParts(d, |b|, |b| + 1, |c|);
    }
    DoubtParts(d, |a|, |c|, |c| + 1);
    forall k | |a| <= k && k + 1 < |d| && d[k].what.Executing? ensures !u && !Doubt(d, |a|, k + 1) {
      assert k == |b| || k == |c|;
    }
  }

  /** And then the pair checks, started only by a runner that is certain. */
  lemma PairCareful(a: Log, d: Log, e: Log, u: bool, ud: bool, bs: seq<string>)
    requires a <= d <= e && Tallied(d, |a|, u, ud, bs) && Careful(d, |a|, |d|, u)
    requires forall i | |a| <= i < |d| :: !d[i].subject.role.Both?
    requires forall i | |d| <= i < |e| :: e[i].subject.role.Both? && !e[i].what.Executing?
    requires |e| > |d| ==> !ud
    ensures Careful(e, |a|, |e|, u)
  {
    hide Doubt, LeavesDoubt;
    SameStages(d, e);
    CarefulKept(d, e, |a|, |d|, u);
    if |e| > |d| {
      DoubtKept(d, e, |a|, |d|);
      forall k | |a| <= k < |d| ensures !LeavesDoubt(e[k].outcome) && !Doubt(e, |a|, k + 1) {
        DoubtParts(e, |a|, k, |d|);
        DoubtParts(e, |a|, k + 1, |d|);
        OneDoubt(e, k, |d|);
      }
      forall k | |a| <= k && k + 1 < |e| && e[k].what.Executing? ensures !u && !Doubt(e, |a|, k + 1) {
        assert k < |d|;
      }
    }
  }

  lemma OneDoubt(log: Log, k: nat, hi: nat)
    requires k < hi <= |log| && !Doubt(log, k, hi)
    ensures !LeavesDoubt(log[k].outcome)
  {
  }

  /**
   Where a runtime reports whatever it leaves behind as a blocker too, no executor is started once
   anything was left behind.
   */
  lemma NoExecutorInDoubt(log: Log, lo: nat, hi: nat, first: nat, uncertain: bool, i: nat)
    requires Careful(log, lo, hi, uncertain) && !uncertain && lo <= i < hi <= |log| && log[i].what.Executing?
    requires Quiet(log, lo, first) && !log[i].subject.role.Both?
    requires log[i].subject.role.Old? ==> i == first
    requires forall k | lo <= k < hi && log[k].outcome.Ran? && LeavesDoubt(log[k].outcome) ::
               log[k].outcome.blockers != []
    ensures !Doubt(log, lo, i)
  {
  }
}
