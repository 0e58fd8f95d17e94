/**
 What an undisturbed run on the main branch leaves behind, said from the issues it found
 and the plan it was given: which issues it files, in what order, and what becomes of
 every issue there was.
 */
module MainFindingsRuns {
  import opened Prelude
  import opened MainFindings

  /** The findings from the `i`-th on for which a run would look for an issue in vain. */
  function Wanting(issues: seq<Issue>, listed: seq<Listed>, findings: seq<Finding>, i: nat): seq<Finding>
    decreases |findings| - i
  {
    if i >= |findings| then []
    else
      var rest := Wanting(issues, listed, findings, i + 1);
      if Covered(issues, findings[i].fingerprint) || ListsFingerprint(listed, findings[i].fingerprint) then rest
      else [findings[i]] + rest
  }

  /** The issues filed for findings, one each: qare's own, open, and marked for the finding and its criterion. */
  function IssuesFor(findings: seq<Finding>): (r: seq<Issue>)
    ensures |r| == |findings|
    ensures forall k :: 0 <= k < |findings| ==>
      r[k].mine && r[k].open && r[k].fingerprint == Some(findings[k].fingerprint)
      && r[k].criterion == findings[k].criterion
  {
    seq(|findings|, k requires 0 <= k < |findings| =>
      Issue(true, Some(findings[k].fingerprint), findings[k].criterion, true))
  }

  function AtMost(findings: seq<Finding>, n: nat): seq<Finding> {
    if |findings| <= n then findings else findings[..n]
  }

  /** How many issues a run may still file. */
  function Room(work: Work): nat {
    if work.filed <= 10 then 10 - work.filed else 0
  }

  /** The same fingerprints have an issue, or are listed, before and after. */
  ghost predicate SameWant(before: seq<Issue>, after: seq<Issue>, listed: seq<Listed>) {
    forall f :: Covered(before, f) || ListsFingerprint(listed, f) <==> Covered(after, f) || ListsFingerprint(listed, f)
  }

  lemma {:induction false} SameWantSameWanting(before: seq<Issue>, after: seq<Issue>, listed: seq<Listed>,
      findings: seq<Finding>, i: nat)
    requires SameWant(before, after, listed)
    ensures Wanting(before, listed, findings, i) == Wanting(after, listed, findings, i)
    decreases |findings| - i
  {
    hide Covered, ListsFingerprint;
    if i < |findings| {
      SameWantSameWanting(before, after, listed, findings, i + 1);
    }
  }

  /** An issue for another finding than those still to come leaves them wanting one. */
  lemma {:induction false} OthersStillWanting(issues: seq<Issue>, issue: Issue, listed: seq<Listed>,
      findings: seq<Finding>, i: nat)
    requires forall k :: i <= k < |findings| ==> !Standing(issue, findings[k].fingerprint)
    ensures Wanting(issues + [issue], listed, findings, i) == Wanting(issues, listed, findings, i)
    decreases |findings| - i
  {
    hide Covered, ListsFingerprint;
    if i < |findings| {
      NewIssueCovers(issues, issue, findings[i].fingerprint);
      OthersStillWanting(issues, issue, listed, findings, i + 1);
    }
  }

  lemma {:induction false} WriteKeepsWant(issues: seq<Issue>, n: nat, now: Issue, listed: seq<Listed>)
    requires n < |issues|
    requires forall f :: (Standing(issues[n], f) <==> Standing(now, f)) || ListsFingerprint(listed, f)
    ensures SameWant(issues, issues[n := now], listed)
  {
    hide ListsFingerprint, Standing;
    forall f | !ListsFingerprint(listed, f) ensures Covered(issues, f) <==> Covered(issues[n := now], f) {
      WriteKeepsCover(issues, n, now, f);
    }
  }

  /** What a run appends while it files, and that it leaves what is open as it is. */
  ghost predicate Appends(before: seq<Issue>, after: seq<Issue>, filed: seq<Finding>) {
    && |after| == |before| + |filed|
    && after[|before|..] == IssuesFor(filed)
    && forall n :: 0 <= n < |before| && before[n].open ==> after[n] == before[n]
  }

  lemma {:induction false} AppendsOneFirst(before: seq<Issue>, finding: Finding, after: seq<Issue>,
      filed: seq<Finding>)
    requires Appends(before + [Issue(true, Some(finding.fingerprint), finding.criterion, true)], after, filed)
    ensures Appends(before, after, [finding] + filed)
  {
    var issue := Issue(true, Some(finding.fingerprint), finding.criterion, true);
    var mid := before + [issue];
    assert after[|before|] == mid[|before|];
    assert after[|before|..] == [issue] + after[|mid|..];
    assert forall n :: 0 <= n < |before| ==> mid[n] == before[n];
  }

  lemma {:induction false} AppendsAfterReopening(before: seq<Issue>, n: nat, after: seq<Issue>, filed: seq<Finding>)
    requires n < |before| && !before[n].open && Appends(before[n := before[n].(open := true)], after, filed)
    ensures Appends(before, after, filed)
  {
  }

  lemma {:induction false} NothingAppended(issues: seq<Issue>)
    ensures Appends(issues, issues, [])
  {
  }

  /** Where a person closed the finding's issue it is there, and reopening it leaves the same wanting. */
  lemma {:induction false} ReopeningKeepsWant(issues: seq<Issue>, f: Fingerprint, listed: seq<Listed>)
    requires ClosedByHand(issues, f).Some?
    ensures var n := ClosedByHand(issues, f).value;
      Covered(issues, f) && SameWant(issues, issues[n := issues[n].(open := true)], listed)
  {
    var n := ClosedByHand(issues, f).value;
    WriteKeepsWant(issues, n, issues[n].(open := true), listed);
  }

  lemma {:induction false} FilingAppends(s: Sys) returns (closing: Sys)
    requires Inv(s) && s.pc.Filing?
    ensures Inv(closing) && closing.pc.Closing? && closing.pc.k == 0 && !closing.pc.closed
    ensures Finish(closing) == Finish(s) && closing.pc.work.listed == s.pc.work.listed
    ensures Appends(s.issues, closing.issues,
              AtMost(Wanting(s.issues, s.pc.work.listed, FindingsOf(s.pc.work.plan), s.pc.i), Room(s.pc.work)))
    decreases |FindingsOf(s.pc.work.plan)| - s.pc.i, 1
  {
    hide Inv, Finish, Appends, Covered, ListsFingerprint;
    var work, i := s.pc.work, s.pc.i;
    var findings := FindingsOf(work.plan);
    if i >= |findings| {
      closing := OneStep(s);
      NothingAppended(s.issues);
    } else if ListsFingerprint(work.listed, findings[i].fingerprint) {
      var next := OneStep(s);
      closing := FilingAppends(next);
    } else if ClosedByHand(s.issues, findings[i].fingerprint).Some? {
      closing := ReopenedAppends(s);
    } else {
      closing := WantedAppends(s);
    }
  }

  lemma {:induction false} ReopenedAppends(s: Sys) returns (closing: Sys)
    requires Inv(s) && s.pc.Filing? && s.pc.i < |FindingsOf(s.pc.work.plan)|
    requires !ListsFingerprint(s.pc.work.listed, FindingsOf(s.pc.work.plan)[s.pc.i].fingerprint)
    requires ClosedByHand(s.issues, FindingsOf(s.pc.work.plan)[s.pc.i].fingerprint).Some?
    ensures Inv(closing) && closing.pc.Closing? && closing.pc.k == 0 && !closing.pc.closed
    ensures Finish(closing) == Finish(s) && closing.pc.work.listed == s.pc.work.listed
    ensures Appends(s.issues, closing.issues,
              AtMost(Wanting(s.issues, s.pc.work.listed, FindingsOf(s.pc.work.plan), s.pc.i), Room(s.pc.work)))
    decreases |FindingsOf(s.pc.work.plan)| - s.pc.i, 0
  {
    hide Inv, Finish, Appends, Covered, ListsFingerprint;
    var work, i := s.pc.work, s.pc.i;
    var findings := FindingsOf(work.plan);
    var n := ClosedByHand(s.issues, findings[i].fingerprint).value;
    var next := TwoSteps(s);
    ReopeningKeepsWant(s.issues, findings[i].fingerprint, work.listed);
    SameWantSameWanting(s.issues, next.issues, work.listed, findings, i + 1);
    closing := FilingAppends(next);
    AppendsAfterReopening(s.issues, n, closing.issues,
      AtMost(Wanting(next.issues, work.listed, findings, i + 1), Room(work)));
  }

  lemma {:induction false} Creates(s: Sys) returns (next: Sys)
    requires Inv(s) && s.pc.Filing? && s.pc.i < |FindingsOf(s.pc.work.plan)| && s.pc.work.filed < MAX_NEW_ISSUES
    requires !ListsFingerprint(s.pc.work.listed, FindingsOf(s.pc.work.plan)[s.pc.i].fingerprint)
    requires ClosedByHand(s.issues, FindingsOf(s.pc.work.plan)[s.pc.i].fingerprint).None?
    ensures Inv(next) && Finish(next) == Finish(s)
    ensures next.pc == Filing(s.pc.work.(filed := s.pc.work.filed + 1), s.pc.i + 1)
    ensures var findings := FindingsOf(s.pc.work.plan); var f := findings[s.pc.i];
      && !Covered(s.issues, f.fingerprint)
      && next.issues == s.issues + [Issue(true, Some(f.fingerprint), f.criterion, true)]
      && forall k :: s.pc.i < k < |findings| ==> findings[k].fingerprint != f.fingerprint
  {
    hide Finish, Covered, ListsFingerprint, Unfiled, NothingMissed;
    NothingFoundIsNothingThere(s);
    NoneIsUncovered(s.issues, FindingsOf(s.pc.work.plan)[s.pc.i].fingerprint);
    next := TwoSteps(s);
  }

  lemma {:induction false} WantedAppends(s: Sys) returns (closing: Sys)
    requires Inv(s) && s.pc.Filing? && s.pc.i < |FindingsOf(s.pc.work.plan)|
    requires !ListsFingerprint(s.pc.work.listed, FindingsOf(s.pc.work.plan)[s.pc.i].fingerprint)
    requires ClosedByHand(s.issues, FindingsOf(s.pc.work.plan)[s.pc.i].fingerprint).None?
    ensures Inv(closing) && closing.pc.Closing? && closing.pc.k == 0 && !closing.pc.closed
    ensures Finish(closing) == Finish(s) && closing.pc.work.listed == s.pc.work.listed
    ensures Appends(s.issues, closing.issues,
              AtMost(Wanting(s.issues, s.pc.work.listed, FindingsOf(s.pc.work.plan), s.pc.i), Room(s.pc.work)))
    decreases |FindingsOf(s.pc.work.plan)| - s.pc.i, 0
  {
    hide Inv, Finish, Appends, Covered, ListsFingerprint, Unfiled, NothingMissed;
    var work, i := s.pc.work, s.pc.i;
    var findings := FindingsOf(work.plan);
    if work.filed >= MAX_NEW_ISSUES {
      var next := OneStep(s);
      closing := FilingAppends(next);
    } else {
      var next := Creates(s);
      OthersStillWanting(s.issues, next.issues[|s.issues|], work.listed, findings, i + 1);
      closing := FilingAppends(next);
      var rest := Wanting(s.issues, work.listed, findings, i + 1);
      AppendsOneFirst(s.issues, findings[i], closing.issues, AtMost(rest, Room(work) - 1));
      OneFirst(findings[i], rest, Room(work));
    }
  }

  lemma {:induction false} OneFirst(finding: Finding, rest: seq<Finding>, n: nat)
    requires n > 0
    ensures AtMost([finding] + rest, n) == [finding] + AtMost(rest, n - 1)
  {
  }

  // -------------------------------------------------------- before the filing and after

  /** Closing the environment's issues leaves the same findings wanting an issue. */
  lemma {:induction false} EnvironmentKeepsWant(s: Sys) returns (filing: Sys)
    requires Inv(s) && s.pc.ClosingEnvironment?
    ensures Inv(filing) && filing.pc == Filing(s.pc.work, 0) && Finish(filing) == Finish(s)
    ensures |filing.issues| == |s.issues| && SameWant(s.issues, filing.issues, s.pc.work.listed)
    decreases Left(s.pc)
  {
    hide Finish, Covered, Unfiled, NothingMissed, ListsFingerprint;
    var work, k := s.pc.work, s.pc.k;
    var next := OneStep(s);
    if k >= |work.listed| {
      filing := next;
    } else {
      if next.issues != s.issues {
        ListedIsOwn(s, k);
        ListedFingerprintIsTrue(s, k);
        WriteKeepsWant(s.issues, work.listed[k].number, next.issues[work.listed[k].number], work.listed);
      }
      hide SameWant, Inv;
      filing := EnvironmentKeepsWant(next);
      SameWantGoesOn(s.issues, next.issues, filing.issues, work.listed);
    }
  }

  lemma {:induction false} ListedFingerprintIsTrue(s: Sys, k: nat)
    requires Inv(s) && !s.pc.Idle? && k < |s.pc.work.listed|
    requires s.pc.work.listed[k].number < |s.issues|
    ensures ListsFingerprint(s.pc.work.listed, s.pc.work.listed[k].fingerprint)
    ensures forall f :: Standing(s.issues[s.pc.work.listed[k].number], f) ==> f == s.pc.work.listed[k].fingerprint
  {
  }

  lemma {:induction false} SameWantGoesOn(a: seq<Issue>, b: seq<Issue>, c: seq<Issue>, listed: seq<Listed>)
    requires SameWant(a, b, listed) && SameWant(b, c, listed)
    ensures SameWant(a, c, listed)
  {
    hide Covered, ListsFingerprint;
  }

  /** Closing what recovered touches nothing but what was listed. */
  lemma {:induction false} ClosingLeaves(s: Sys, m: nat)
    requires Inv(s) && s.pc.Closing? && forall k :: 0 <= k < |s.pc.work.listed| ==> s.pc.work.listed[k].number < m
    ensures |Finish(s).issues| == |s.issues|
    ensures forall n :: m <= n < |s.issues| ==> Finish(s).issues[n] == s.issues[n]
    decreases Left(s.pc)
  {
    hide Inv;
    StepKeeps(s);
    var next := StepRun(s);
    if s.pc.k < |s.pc.work.listed| {
      ClosingLeaves(next, m);
    } else {
      assert Finish(s) == Finish(next) == next;
    }
  }

  /** What is listed has an issue anyway. */
  lemma {:induction false} ListedWantsNothing(issues: seq<Issue>, findings: seq<Finding>, i: nat)
    ensures Wanting(issues, ListOpen(issues), findings, i) == Wanting(issues, [], findings, i)
    decreases |findings| - i
  {
    if i < |findings| {
      ListedWantsNothing(issues, findings, i + 1);
      if ListsFingerprint(ListOpen(issues), findings[i].fingerprint) {
        var k :| 0 <= k < |ListOpen(issues)| && ListOpen(issues)[k].fingerprint == findings[i].fingerprint;
        assert Standing(issues[ListOpen(issues)[k].number], findings[i].fingerprint);
      }
    }
  }

  // ------------------------------------------------------------- what a run leaves behind

  /** The findings of a run: those it made, or that the environment was down and nothing else. */
  function Found(plan: Plan): seq<Finding> {
    if plan.Environment? then [Finding("environment", None)] else plan.findings
  }

  /**
   An undisturbed run files one issue each for the first ten of its findings that have none,
   open or closed by hand, in their order; and no other issue.
   */
  lemma {:induction false} RunFilesInOrder(s: Sys, plan: Plan)
    requires Inv(s) && s.pc.Idle? && DistinctFindings(Found(plan))
    ensures Inv(Happen(s, Start(plan)))
    ensures var end := Finish(Happen(s, Start(plan))).issues;
      |end| >= |s.issues| && end[|s.issues|..] == IssuesFor(AtMost(Wanting(s.issues, [], Found(plan), 0), 10))
  {
    hide Inv, Finish, Wanting;
    StartKeeps(s, plan);
    var started := Happen(s, Start(plan));
    var listed, filing := started.pc.work.listed, started;
    if started.pc.ClosingEnvironment? {
      filing := EnvironmentKeepsWant(started);
      SameWantSameWanting(s.issues, filing.issues, listed, Found(plan), 0);
    }
    ListedWantsNothing(s.issues, Found(plan), 0);
    var closing := FilingAppends(filing);
    ClosingLeaves(closing, |s.issues|);
    assert Finish(started).issues[|s.issues|..] == closing.issues[|s.issues|..];
  }

  /** What becomes of an issue that was there: nothing, unless it is qare's own and carries its marker. */
  ghost predicate Becomes(was: Issue, now: Issue, plan: Plan) {
    match was
    case Issue(true, Some(f), criterion, true) =>
      if plan.Checked? && ((plan.environmentUp && f == "environment")
                           || (criterion.Some? && criterion.value in plan.recovered))
      then now == Issue(true, None, None, false) else now == was
    case Issue(true, Some(f), criterion, false) =>
      now == Issue(true, Some(f), criterion, exists j :: 0 <= j < |Found(plan)| && Found(plan)[j].fingerprint == f)
    case _ => now == was
  }

  /**
   An undisturbed run closes what recovered and takes its markers, reopens what a person
   closed and it found again, and leaves every other issue as it was.
   */
  lemma {:induction false} RunLeavesEach(s: Sys, plan: Plan, n: nat)
    requires Inv(s) && s.pc.Idle? && DistinctFindings(Found(plan)) && n < |s.issues|
    ensures Inv(Happen(s, Start(plan)))
    ensures n < |Finish(Happen(s, Start(plan))).issues|
    ensures Becomes(s.issues[n], Finish(Happen(s, Start(plan))).issues[n], plan)
  {
    hide Inv, Finish;
    RunDoesToEach(s, plan, n);
  }
}
