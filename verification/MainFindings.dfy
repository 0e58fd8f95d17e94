/**
 Findings on the main branch become issues, one per problem. A run lists the
 issues it finds open, then files, reopens and closes one API call at a time; it
 may die after any of them, and between any two of them people close issues,
 reopen them and file their own.

 The repository's issues, the run and the people form one state machine, and a
 history is any schedule of events, so a theorem over all schedules is a theorem
 over every sequence of runs.
 */
module MainFindings {
  import opened Prelude

  type Fingerprint = string

  type CriterionKey = string

  /** An issue by its number, which is its place. The markers are gone once they were retired. */
  datatype Issue = Issue(mine: bool, fingerprint: Option<Fingerprint>, criterion: Option<CriterionKey>, open: bool)

  datatype Finding = Finding(fingerprint: Fingerprint, criterion: Option<CriterionKey>)

  /** What a run classified its result as. */
  datatype Plan =
    | Environment
    | Checked(environmentUp: bool, findings: seq<Finding>, recovered: set<CriterionKey>)

  /** An own open issue as the run listed it. */
  datatype Listed = Listed(number: nat, fingerprint: Fingerprint, criterion: Option<CriterionKey>)

  /** A run under way: what it does, what it listed, and how many issues it has filed. */
  datatype Work = Work(plan: Plan, listed: seq<Listed>, filed: nat)

  datatype Pc =
    | Idle
    | ClosingEnvironment(work: Work, k: nat, closed: bool)
    | Filing(work: Work, i: nat)
    | Reopening(work: Work, i: nat, number: nat)
    | Creating(work: Work, i: nat)
    | Closing(work: Work, k: nat, closed: bool)

  /** `ownAtStart` counts the own issues there were when the last run started. */
  datatype Sys = Sys(issues: seq<Issue>, pc: Pc, ownAtStart: nat)

  /** A run starts, takes its next step or dies; a person closes, reopens or files an issue. */
  datatype Event = Start(plan: Plan) | Step | Die | Close(number: nat) | Reopen(number: nat) | File(theirs: Issue)

  const MAX_NEW_ISSUES := 10

  const ENVIRONMENT := "environment"

  // ------------------------------------------------------------------ the searches

  predicate Standing(issue: Issue, fingerprint: Fingerprint) {
    issue.mine && issue.fingerprint == Some(fingerprint)
  }

  /** Every open issue filed for a finding. */
  function ListOpen(issues: seq<Issue>): (listed: seq<Listed>)
    ensures forall k :: 0 <= k < |listed| ==>
      && listed[k].number < |issues|
      && issues[listed[k].number] == Issue(true, Some(listed[k].fingerprint), listed[k].criterion, true)
    ensures forall n :: 0 <= n < |issues| && issues[n].mine && issues[n].fingerprint.Some? && issues[n].open ==>
      Lists(listed, n)
  {
    if issues == [] then []
    else
      var n := |issues| - 1;
      var before, last := ListOpen(issues[..n]), issues[n];
      ListsMore(before, Listed(n, if last.fingerprint.Some? then last.fingerprint.value else "", last.criterion));
      if last.mine && last.fingerprint.Some? && last.open
        then before + [Listed(n, last.fingerprint.value, last.criterion)] else before
  }

  lemma {:induction false} ListsMore(listed: seq<Listed>, last: Listed)
    ensures forall n :: Lists(listed + [last], n) <==> Lists(listed, n) || n == last.number
  {
    var all := listed + [last];
    forall n | Lists(listed, n) || n == last.number ensures Lists(all, n) {
      if n == last.number {
        assert all[|listed|] == last;
      } else {
        var k :| 0 <= k < |listed| && listed[k].number == n;
        assert all[k] == listed[k];
      }
    }
  }

  predicate Lists(listed: seq<Listed>, number: nat) {
    exists k :: 0 <= k < |listed| && listed[k].number == number
  }

  predicate ListsFingerprint(listed: seq<Listed>, fingerprint: Fingerprint) {
    exists k :: 0 <= k < |listed| && listed[k].fingerprint == fingerprint
  }

  /** Where the last of the closed issues is whose marker names this fingerprint. */
  function ClosedByHand(issues: seq<Issue>, fingerprint: Fingerprint): (r: Option<nat>)
    ensures r.Some? ==> r.value < |issues| && Standing(issues[r.value], fingerprint) && !issues[r.value].open
    ensures forall n :: 0 <= n < |issues| && Standing(issues[n], fingerprint) && !issues[n].open ==>
      r.Some? && n <= r.value
  {
    if issues == [] then None
    else
      var n := |issues| - 1;
      if Standing(issues[n], fingerprint) && !issues[n].open then Some(n) else ClosedByHand(issues[..n], fingerprint)
  }

  // --------------------------------------------------------------------- the steps

  function FindingsOf(plan: Plan): seq<Finding> {
    match plan
    case Environment => [Finding(ENVIRONMENT, None)]
    case Checked(_, findings, _) => findings
  }

  function RecoveredOf(plan: Plan): set<CriterionKey> {
    if plan.Environment? then {} else plan.recovered
  }

  function StartRun(issues: seq<Issue>, plan: Plan): Pc {
    var work := Work(plan, ListOpen(issues), 0);
    if plan.Checked? && plan.environmentUp then ClosingEnvironment(work, 0, false) else Filing(work, 0)
  }

  /** Closing an issue is two writes: the state first, the markers last. */
  function CloseIssue(issues: seq<Issue>, number: nat): seq<Issue> {
    if number < |issues| then issues[number := issues[number].(open := false)] else issues
  }

  function RetireMarkers(issues: seq<Issue>, number: nat): seq<Issue> {
    if number < |issues| then issues[number := issues[number].(fingerprint := None, criterion := None)] else issues
  }

  function ReopenIssue(issues: seq<Issue>, number: nat): seq<Issue> {
    if number < |issues| then issues[number := issues[number].(open := true)] else issues
  }

  function StepFiling(s: Sys, work: Work, i: nat): Sys {
    var findings := FindingsOf(work.plan);
    if i >= |findings| then s.(pc := Closing(work, 0, false))
    else if ListsFingerprint(work.listed, findings[i].fingerprint) then s.(pc := Filing(work, i + 1))
    else
      match ClosedByHand(s.issues, findings[i].fingerprint)
      case Some(n) => s.(pc := Reopening(work, i, n))
      case None =>
        if work.filed >= MAX_NEW_ISSUES then s.(pc := Filing(work, i + 1))
        else s.(pc := Creating(work.(filed := work.filed + 1), i))
  }

  function StepRun(s: Sys): Sys {
    match s.pc
    case Idle => s
    case ClosingEnvironment(work, k, closed) =>
      if k >= |work.listed| then s.(pc := Filing(work, 0))
      else if work.listed[k].fingerprint != ENVIRONMENT then s.(pc := ClosingEnvironment(work, k + 1, false))
      else if !closed
        then s.(issues := CloseIssue(s.issues, work.listed[k].number), pc := ClosingEnvironment(work, k, true))
      else s.(issues := RetireMarkers(s.issues, work.listed[k].number), pc := ClosingEnvironment(work, k + 1, false))
    case Filing(work, i) => StepFiling(s, work, i)
    case Reopening(work, i, n) => s.(issues := ReopenIssue(s.issues, n), pc := Filing(work, i + 1))
    case Creating(work, i) =>
      var findings := FindingsOf(work.plan);
      if i >= |findings| then s.(pc := Filing(work, i + 1))
      else s.(issues := s.issues + [Issue(true, Some(findings[i].fingerprint), findings[i].criterion, true)],
        pc := Filing(work, i + 1))
    case Closing(work, k, closed) =>
      if k >= |work.listed| then s.(pc := Idle)
      else if work.listed[k].criterion.None? || work.listed[k].criterion.value !in RecoveredOf(work.plan)
        then s.(pc := Closing(work, k + 1, false))
      else if !closed then s.(issues := CloseIssue(s.issues, work.listed[k].number), pc := Closing(work, k, true))
      else s.(issues := RetireMarkers(s.issues, work.listed[k].number), pc := Closing(work, k + 1, false))
  }

  function Own(issues: seq<Issue>): nat {
    if issues == [] then 0 else Own(issues[..|issues| - 1]) + if issues[|issues| - 1].mine then 1 else 0
  }

  /** What an event makes of the state. Runs are one after another: one starts only when none is under way. */
  function Happen(s: Sys, e: Event): Sys {
    match e
    case Start(plan) => if s.pc.Idle? then Sys(s.issues, StartRun(s.issues, plan), Own(s.issues)) else s
    case Step => StepRun(s)
    case Die => s.(pc := Idle)
    case Close(n) => s.(issues := CloseIssue(s.issues, n))
    case Reopen(n) => s.(issues := ReopenIssue(s.issues, n))
    case File(theirs) => if theirs.mine then s else s.(issues := s.issues + [theirs])
  }

  // ------------------------------------------------------------------- the invariant

  ghost predicate DistinctFindings(findings: seq<Finding>) {
    forall i, j :: 0 <= i < j < |findings| ==> findings[i].fingerprint != findings[j].fingerprint
  }

  /** At most one own issue carries each fingerprint. */
  ghost predicate OneEach(issues: seq<Issue>) {
    forall m, n :: 0 <= m < n < |issues| && issues[m].mine && issues[n].mine && issues[m].fingerprint.Some? ==>
      issues[m].fingerprint != issues[n].fingerprint
  }

  /** What a run listed is still there, as it was listed or with its markers retired. */
  ghost predicate ListIsTrue(issues: seq<Issue>, listed: seq<Listed>) {
    forall k :: 0 <= k < |listed| ==>
      && listed[k].number < |issues|
      && issues[listed[k].number].mine
      && (issues[listed[k].number].fingerprint.Some? ==>
            issues[listed[k].number].fingerprint.value == listed[k].fingerprint
            && issues[listed[k].number].criterion == listed[k].criterion)
  }

  predicate Covered(issues: seq<Issue>, fingerprint: Fingerprint) {
    exists n :: 0 <= n < |issues| && Standing(issues[n], fingerprint)
  }

  /** How many of the findings `i` to `j` have no issue and are not listed either. */
  function Unfiled(issues: seq<Issue>, listed: seq<Listed>, findings: seq<Finding>, i: nat, j: nat): nat
    requires j <= |findings|
  {
    if j <= i then 0
    else
      var fingerprint := findings[j - 1].fingerprint;
      Unfiled(issues, listed, findings, i, j - 1)
      + if Covered(issues, fingerprint) || ListsFingerprint(listed, fingerprint) then 0 else 1
  }

  /**
   A run that goes on from finding `i` will search for this fingerprint's closed issue
   and file one if it finds none: nothing listed carries the fingerprint, and the
   findings before its own use up less than what the run may still file.
   */
  ghost predicate WouldFile(issues: seq<Issue>, work: Work, i: nat, fingerprint: Fingerprint) {
    var findings := FindingsOf(work.plan);
    && !ListsFingerprint(work.listed, fingerprint)
    && exists j :: i <= j < |findings| && findings[j].fingerprint == fingerprint
         && work.filed + Unfiled(issues, work.listed, findings, i, j) < MAX_NEW_ISSUES
  }

  /** Whatever stands open is nothing the run would file another issue for. */
  ghost predicate NothingMissed(issues: seq<Issue>, work: Work, i: nat) {
    forall n :: 0 <= n < |issues| && issues[n].mine && issues[n].open && issues[n].fingerprint.Some? ==>
      !WouldFile(issues, work, i, issues[n].fingerprint.value)
  }

  ghost predicate NoneStanding(issues: seq<Issue>, fingerprint: Fingerprint) {
    forall n :: 0 <= n < |issues| ==> !Standing(issues[n], fingerprint)
  }

  /** What a run rests on whatever people do to the issues' states. */
  ghost predicate Sound(issues: seq<Issue>, work: Work, i: nat) {
    && DistinctFindings(FindingsOf(work.plan))
    && ListIsTrue(issues, work.listed)
    && i <= |FindingsOf(work.plan)|
    && work.filed <= MAX_NEW_ISSUES
  }

  /** How many findings a run has searched for. */
  function Searched(pc: Pc): nat
    requires !pc.Idle?
  {
    match pc
    case ClosingEnvironment(_, _, _) => 0
    case Filing(_, i) => i
    case Reopening(_, i, _) => i + 1
    case Creating(_, i) => i + 1
    case Closing(work, _, _) => |FindingsOf(work.plan)|
  }

  ghost predicate PcOk(issues: seq<Issue>, pc: Pc) {
    && (!pc.Idle? ==> Sound(issues, pc.work, Searched(pc)))
    && (pc.Reopening? ==>
      pc.number < |issues| && Standing(issues[pc.number], FindingsOf(pc.work.plan)[pc.i].fingerprint))
    && (pc.Creating? ==> pc.work.filed > 0 && NoneStanding(issues, FindingsOf(pc.work.plan)[pc.i].fingerprint))
  }

  /** How many issues the run under way has filed. */
  function Filed(pc: Pc): int {
    if pc.Idle? then 0 else if pc.Creating? then pc.work.filed - 1 else pc.work.filed
  }

  /** One own issue a fingerprint, and a run that knows what it listed. */
  ghost predicate Base(s: Sys) {
    && OneEach(s.issues)
    && PcOk(s.issues, s.pc)
    && (!s.pc.Idle? ==> Own(s.issues) == s.ownAtStart + Filed(s.pc))
  }

  /** And no issue stands open that the run under way would file another one beside. */
  ghost predicate Inv(s: Sys) {
    && Base(s)
    && (!s.pc.Idle? ==> NothingMissed(s.issues, s.pc.work, Searched(s.pc)))
  }

  predicate Searches(pc: Pc, f: Fingerprint) {
    pc.Filing? && pc.i < |FindingsOf(pc.work.plan)| && FindingsOf(pc.work.plan)[pc.i].fingerprint == f
  }

  /** A run is about to search in vain for a finding's issue that stands open, unlisted, and to file another. */
  predicate Overlooks(s: Sys) {
    && s.pc.Filing? && s.pc.i < |FindingsOf(s.pc.work.plan)| && s.pc.work.filed < MAX_NEW_ISSUES
    && var f := FindingsOf(s.pc.work.plan)[s.pc.i].fingerprint;
       !ListsFingerprint(s.pc.work.listed, f) && ClosedByHand(s.issues, f).None? && Covered(s.issues, f)
  }

  // -------------------------------------------------------------- what a step keeps

  lemma {:induction false} OwnAppend(issues: seq<Issue>, issue: Issue)
    ensures Own(issues + [issue]) == Own(issues) + if issue.mine then 1 else 0
  {
    assert (issues + [issue])[..|issues|] == issues;
  }

  lemma {:induction false} OwnUpdate(issues: seq<Issue>, n: nat, issue: Issue)
    requires n < |issues| && issue.mine == issues[n].mine
    ensures Own(issues[n := issue]) == Own(issues)
  {
    var last := |issues| - 1;
    if n < last {
      assert issues[n := issue][..last] == issues[..last][n := issue];
      OwnUpdate(issues[..last], n, issue);
    } else {
      assert issues[n := issue][..last] == issues[..last];
    }
  }

  /** An issue that was closed, or whose markers were retired. */
  ghost predicate Faded(was: Issue, now: Issue) {
    && now.mine == was.mine
    && ((now.fingerprint == was.fingerprint && now.criterion == was.criterion) || now.fingerprint.None?)
    && (now.open ==> was.open)
  }

  lemma {:induction false} FadingKeeps(issues: seq<Issue>, n: nat, now: Issue, listed: seq<Listed>,
      fingerprint: Fingerprint)
    requires n < |issues| && Faded(issues[n], now)
    ensures OneEach(issues) ==> OneEach(issues[n := now])
    ensures ListIsTrue(issues, listed) ==> ListIsTrue(issues[n := now], listed)
    ensures NoneStanding(issues, fingerprint) ==> NoneStanding(issues[n := now], fingerprint)
  {
  }

  /** What a run would file depends on the issues only through whether its unlisted findings have one. */
  lemma {:induction false} SameCoverSameUnfiled(before: seq<Issue>, after: seq<Issue>, listed: seq<Listed>,
      findings: seq<Finding>, i: nat, j: nat)
    requires j <= |findings|
    requires forall k :: i <= k < j && !ListsFingerprint(listed, findings[k].fingerprint) ==>
      (Covered(before, findings[k].fingerprint) <==> Covered(after, findings[k].fingerprint))
    ensures Unfiled(before, listed, findings, i, j) == Unfiled(after, listed, findings, i, j)
  {
    hide Covered, ListsFingerprint;
    if i < j {
      SameCoverSameUnfiled(before, after, listed, findings, i, j - 1);
    }
  }

  lemma {:induction false} UnfiledSplits(issues: seq<Issue>, listed: seq<Listed>, findings: seq<Finding>, i: nat,
      j: nat)
    requires i < j <= |findings|
    ensures Unfiled(issues, listed, findings, i, j)
      == (if Covered(issues, findings[i].fingerprint) || ListsFingerprint(listed, findings[i].fingerprint) then 0
        else 1)
         + Unfiled(issues, listed, findings, i + 1, j)
  {
    hide Covered, ListsFingerprint;
    if i + 1 < j {
      UnfiledSplits(issues, listed, findings, i, j - 1);
    }
  }

  lemma {:induction false} SameCoverSameFiling(before: seq<Issue>, after: seq<Issue>, work: Work, i: nat,
      fingerprint: Fingerprint)
    requires forall k ::
      i <= k < |FindingsOf(work.plan)| && !ListsFingerprint(work.listed, FindingsOf(work.plan)[k].fingerprint) ==>
      (Covered(before, FindingsOf(work.plan)[k].fingerprint) <==> Covered(after, FindingsOf(work.plan)[k].fingerprint))
    ensures WouldFile(before, work, i, fingerprint) <==> WouldFile(after, work, i, fingerprint)
  {
    hide Covered, ListsFingerprint;
    var findings := FindingsOf(work.plan);
    forall j | i <= j < |findings|
      ensures Unfiled(before, work.listed, findings, i, j) == Unfiled(after, work.listed, findings, i, j)
    {
      SameCoverSameUnfiled(before, after, work.listed, findings, i, j);
    }
  }

  /** Writing to an issue whose marker stays, or whose fingerprint is listed, changes nothing a run would file. */
  lemma {:induction false} WriteKeepsFiling(issues: seq<Issue>, n: nat, now: Issue, work: Work, i: nat)
    requires n < |issues| && now.mine == issues[n].mine
    requires now.fingerprint == issues[n].fingerprint
      || (issues[n].fingerprint.Some? && now.fingerprint.None?
        && ListsFingerprint(work.listed, issues[n].fingerprint.value))
    ensures forall f :: WouldFile(issues, work, i, f) <==> WouldFile(issues[n := now], work, i, f)
  {
    hide WouldFile, ListsFingerprint;
    forall f | !ListsFingerprint(work.listed, f) ensures Covered(issues, f) <==> Covered(issues[n := now], f) {
      WriteKeepsCover(issues, n, now, f);
    }
    forall f ensures WouldFile(issues, work, i, f) <==> WouldFile(issues[n := now], work, i, f) {
      SameCoverSameFiling(issues, issues[n := now], work, i, f);
    }
  }

  lemma {:induction false} WriteKeepsCover(issues: seq<Issue>, n: nat, now: Issue, f: Fingerprint)
    requires n < |issues| && (Standing(issues[n], f) <==> Standing(now, f))
    ensures Covered(issues, f) <==> Covered(issues[n := now], f)
  {
    if Covered(issues, f) {
      var m :| 0 <= m < |issues| && Standing(issues[m], f);
      assert Standing(issues[n := now][m], f);
    }
    if Covered(issues[n := now], f) {
      var m :| 0 <= m < |issues| && Standing(issues[n := now][m], f);
      assert Standing(issues[m], f);
    }
  }

  lemma {:induction false} NewIssueCovers(issues: seq<Issue>, issue: Issue, f: Fingerprint)
    ensures Covered(issues + [issue], f) <==> Covered(issues, f) || Standing(issue, f)
  {
    var all := issues + [issue];
    if Covered(issues, f) {
      var m :| 0 <= m < |issues| && Standing(issues[m], f);
      assert Standing(all[m], f);
    }
    if Standing(issue, f) {
      assert Standing(all[|issues|], f);
    }
  }

  /** The fingerprint of the finding a run reopens or files an issue for. */
  function Sought(pc: Pc): Fingerprint {
    if (pc.Reopening? || pc.Creating?) && pc.i < |FindingsOf(pc.work.plan)|
      then FindingsOf(pc.work.plan)[pc.i].fingerprint else ""
  }

  /** Writing to an issue, closing it or taking its markers, keeps what a run rests on. */
  lemma {:induction false} FadedKeepsBase(s: Sys, n: nat, now: Issue)
    requires Base(s) && n < |s.issues| && Faded(s.issues[n], now)
    requires s.pc.Reopening? ==> now.fingerprint == s.issues[n].fingerprint
    ensures Base(s.(issues := s.issues[n := now]))
  {
    OwnUpdate(s.issues, n, now);
    if s.pc.Idle? {
      FadingKeeps(s.issues, n, now, [], "");
    } else {
      FadingKeeps(s.issues, n, now, s.pc.work.listed, Sought(s.pc));
    }
  }

  lemma {:induction false} CloseKeepsBase(s: Sys, n: nat)
    requires Base(s)
    ensures Base(s.(issues := CloseIssue(s.issues, n)))
  {
    if n < |s.issues| {
      FadedKeepsBase(s, n, s.issues[n].(open := false));
    }
  }

  lemma {:induction false} RetireKeepsBase(s: Sys, n: nat)
    requires Base(s) && !s.pc.Reopening?
    ensures Base(s.(issues := RetireMarkers(s.issues, n)))
  {
    if n < |s.issues| {
      FadedKeepsBase(s, n, s.issues[n].(fingerprint := None, criterion := None));
    }
  }

  lemma {:induction false} ReopenKeepsBase(s: Sys, n: nat)
    requires Base(s)
    ensures Base(s.(issues := ReopenIssue(s.issues, n)))
  {
    if n < |s.issues| {
      OwnUpdate(s.issues, n, s.issues[n].(open := true));
    }
  }

  /** Closing an issue, whoever does it, leaves nothing the run would file beside. */
  lemma {:induction false} CloseWatched(s: Sys, n: nat)
    requires Inv(s) && !s.pc.Idle? && n < |s.issues|
    ensures NothingMissed(CloseIssue(s.issues, n), s.pc.work, Searched(s.pc))
  {
    hide WouldFile, Base;
    WriteKeepsFiling(s.issues, n, s.issues[n].(open := false), s.pc.work, Searched(s.pc));
  }

  /**
   Whom a person may reopen: anything at all but a closed own issue whose marker
   names a finding that the run under way would file an issue for.
   */
  ghost predicate MayReopen(s: Sys, n: nat) {
    || s.pc.Idle?
    || n >= |s.issues| || !s.issues[n].mine || s.issues[n].fingerprint.None? || s.issues[n].open
    || !WouldFile(s.issues, s.pc.work, Searched(s.pc), s.issues[n].fingerprint.value)
  }

  lemma {:induction false} ReopenKeeps(s: Sys, n: nat)
    requires Inv(s) && MayReopen(s, n)
    ensures Inv(s.(issues := ReopenIssue(s.issues, n)))
  {
    ReopenKeepsBase(s, n);
    if n < |s.issues| && !s.pc.Idle? {
      hide WouldFile, Base;
      WriteKeepsFiling(s.issues, n, s.issues[n].(open := true), s.pc.work, Searched(s.pc));
    }
  }

  lemma {:induction false} TheirsKeepOneEach(issues: seq<Issue>, theirs: Issue, listed: seq<Listed>, f: Fingerprint)
    requires !theirs.mine
    ensures OneEach(issues) ==> OneEach(issues + [theirs])
    ensures ListIsTrue(issues, listed) ==> ListIsTrue(issues + [theirs], listed)
    ensures NoneStanding(issues, f) ==> NoneStanding(issues + [theirs], f)
  {
  }

  lemma {:induction false} FileKeepsPc(issues: seq<Issue>, pc: Pc, theirs: Issue)
    requires PcOk(issues, pc) && !pc.Idle? && !theirs.mine
    ensures PcOk(issues + [theirs], pc)
  {
    hide ListIsTrue, OneEach, NoneStanding, DistinctFindings;
    TheirsKeepOneEach(issues, theirs, pc.work.listed, Sought(pc));
    assert pc.Reopening? ==> (issues + [theirs])[pc.number] == issues[pc.number];
  }

  lemma {:induction false} FileKeepsBase(s: Sys, theirs: Issue)
    requires Base(s) && !theirs.mine
    ensures Base(s.(issues := s.issues + [theirs]))
  {
    hide OneEach, Own;
    OwnAppend(s.issues, theirs);
    TheirsKeepOneEach(s.issues, theirs, [], "");
    if !s.pc.Idle? {
      hide PcOk;
      FileKeepsPc(s.issues, s.pc, theirs);
    }
  }

  lemma {:induction false} FileWatched(s: Sys, theirs: Issue)
    requires Inv(s) && !s.pc.Idle? && !theirs.mine
    ensures NothingMissed(s.issues + [theirs], s.pc.work, Searched(s.pc))
  {
    hide WouldFile, NothingMissed, Base;
    NewIssueKeepsFiling(s.issues, theirs, s.pc.work, Searched(s.pc));
    TheirsMissNothing(s.issues, theirs, s.pc.work, Searched(s.pc));
  }

  lemma {:induction false} TheirsMissNothing(issues: seq<Issue>, theirs: Issue, work: Work, i: nat)
    requires !theirs.mine && NothingMissed(issues, work, i)
    requires forall f :: WouldFile(issues, work, i, f) <==> WouldFile(issues + [theirs], work, i, f)
    ensures NothingMissed(issues + [theirs], work, i)
  {
    hide WouldFile;
  }

  /** A new issue changes nothing a run would file if it stands for none of the findings still to come. */
  lemma {:induction false} NewIssueKeepsFiling(issues: seq<Issue>, issue: Issue, work: Work, i: nat)
    requires forall k :: i <= k < |FindingsOf(work.plan)| ==> !Standing(issue, FindingsOf(work.plan)[k].fingerprint)
    ensures forall f :: WouldFile(issues, work, i, f) <==> WouldFile(issues + [issue], work, i, f)
  {
    hide WouldFile, Covered, ListsFingerprint;
    forall f ensures WouldFile(issues, work, i, f) <==> WouldFile(issues + [issue], work, i, f) {
      forall k | i <= k < |FindingsOf(work.plan)| {
        NewIssueCovers(issues, issue, FindingsOf(work.plan)[k].fingerprint);
      }
      SameCoverSameFiling(issues, issues + [issue], work, i, f);
    }
  }

  lemma {:induction false} StartKeeps(s: Sys, plan: Plan)
    requires Inv(s) && s.pc.Idle? && DistinctFindings(FindingsOf(plan))
    ensures Inv(Happen(s, Start(plan)))
  {
    hide Unfiled;
    var listed := ListOpen(s.issues);
    forall n | 0 <= n < |s.issues| && s.issues[n].mine && s.issues[n].open && s.issues[n].fingerprint.Some?
      ensures ListsFingerprint(listed, s.issues[n].fingerprint.value)
    {
      var k :| 0 <= k < |listed| && listed[k].number == n;
      assert listed[k].fingerprint == s.issues[n].fingerprint.value;
    }
  }

  lemma {:induction false} OverlookedIsMissed(s: Sys)
    ensures Overlooks(s) ==> !NothingMissed(s.issues, s.pc.work, Searched(s.pc))
  {
    if Overlooks(s) {
      var work, i := s.pc.work, s.pc.i;
      var f := FindingsOf(work.plan)[i].fingerprint;
      var n :| 0 <= n < |s.issues| && Standing(s.issues[n], f);
      assert s.issues[n].open;
      assert Unfiled(s.issues, work.listed, FindingsOf(work.plan), i, i) == 0;
      assert WouldFile(s.issues, work, i, f);
    }
  }

  lemma {:induction false} InvOverlooksNothing(s: Sys)
    requires Inv(s)
    ensures !Overlooks(s)
  {
    OverlookedIsMissed(s);
  }

  /** Where a run that may still file finds no issue closed by hand and has listed none, there is none at all. */
  lemma {:induction false} NothingFoundIsNothingThere(s: Sys)
    requires Inv(s) && s.pc.Filing? && s.pc.i < |FindingsOf(s.pc.work.plan)| && s.pc.work.filed < MAX_NEW_ISSUES
    requires !ListsFingerprint(s.pc.work.listed, FindingsOf(s.pc.work.plan)[s.pc.i].fingerprint)
    requires ClosedByHand(s.issues, FindingsOf(s.pc.work.plan)[s.pc.i].fingerprint).None?
    ensures NoneStanding(s.issues, FindingsOf(s.pc.work.plan)[s.pc.i].fingerprint)
  {
    InvOverlooksNothing(s);
  }

  /** One finding handled: the run would file for the findings after it exactly what it would have. */
  lemma {:induction false} HandledGoesOn(issues: seq<Issue>, work: Work, i: nat, filed: nat, f: Fingerprint)
    requires DistinctFindings(FindingsOf(work.plan)) && i < |FindingsOf(work.plan)|
    requires filed == work.filed + if Covered(issues, FindingsOf(work.plan)[i].fingerprint)
      || ListsFingerprint(work.listed, FindingsOf(work.plan)[i].fingerprint) then 0 else 1
    ensures WouldFile(issues, work.(filed := filed), i + 1, f)
      <==> WouldFile(issues, work, i, f) && FindingsOf(work.plan)[i].fingerprint != f
  {
    hide Covered, ListsFingerprint;
    var findings := FindingsOf(work.plan);
    forall j | i < j < |findings|
      ensures filed + Unfiled(issues, work.listed, findings, i + 1, j)
        == work.filed + Unfiled(issues, work.listed, findings, i, j)
    {
      UnfiledSplits(issues, work.listed, findings, i, j);
    }
  }

  /** A run that may file no more would file nothing, wherever it stands. */
  lemma {:induction false} NoneLeftToFile(issues: seq<Issue>, work: Work, i: nat, f: Fingerprint)
    requires work.filed >= MAX_NEW_ISSUES
    ensures !WouldFile(issues, work, i, f)
  {
  }

  lemma {:induction false} FilingWouldFile(s: Sys, f: Fingerprint)
    requires Base(s) && !Overlooks(s) && s.pc.Filing?
    ensures var next := StepFiling(s, s.pc.work, s.pc.i);
      WouldFile(next.issues, next.pc.work, Searched(next.pc), f)
      <==> WouldFile(s.issues, s.pc.work, Searched(s.pc), f) && !Searches(s.pc, f)
  {
    hide Unfiled, ListsFingerprint, WouldFile;
    var work, i := s.pc.work, s.pc.i;
    var findings := FindingsOf(work.plan);
    if i >= |findings| {
      NoFindingLeft(s.issues, work, i, f);
      NoFindingLeft(s.issues, work, |findings|, f);
    } else if ListsFingerprint(work.listed, findings[i].fingerprint) {
      HandledGoesOn(s.issues, work, i, work.filed, f);
    } else if ClosedByHand(s.issues, findings[i].fingerprint).Some? {
      assert Covered(s.issues, findings[i].fingerprint);
      HandledGoesOn(s.issues, work, i, work.filed, f);
    } else if work.filed >= MAX_NEW_ISSUES {
      NoneLeftToFile(s.issues, work, i, f);
      NoneLeftToFile(s.issues, work, i + 1, f);
    } else {
      HandledGoesOn(s.issues, work, i, work.filed + 1, f);
    }
  }

  lemma {:induction false} NoFindingLeft(issues: seq<Issue>, work: Work, i: nat, f: Fingerprint)
    requires i >= |FindingsOf(work.plan)|
    ensures !WouldFile(issues, work, i, f)
  {
  }

  lemma {:induction false} FilingKeepsBase(s: Sys)
    requires Base(s) && !Overlooks(s) && s.pc.Filing?
    ensures Base(StepFiling(s, s.pc.work, s.pc.i))
  {
    hide ListsFingerprint, OneEach, ListIsTrue, DistinctFindings;
  }

  /** Once a finding was searched for, the run files nothing more for it. */
  lemma {:induction false} SearchedIsOver(issues: seq<Issue>, work: Work, i: nat)
    requires DistinctFindings(FindingsOf(work.plan)) && i < |FindingsOf(work.plan)|
    ensures !WouldFile(issues, work, i + 1, FindingsOf(work.plan)[i].fingerprint)
  {
  }

  lemma {:induction false} CreatingKeepsBase(s: Sys)
    requires Base(s) && s.pc.Creating?
    ensures Base(StepRun(s))
  {
    var work, i := s.pc.work, s.pc.i;
    var findings := FindingsOf(work.plan);
    var issue := Issue(true, Some(findings[i].fingerprint), findings[i].criterion, true);
    OwnAppend(s.issues, issue);
    assert forall n :: 0 <= n < |s.issues| ==> !Standing(s.issues[n], findings[i].fingerprint);
    assert OneEach(s.issues + [issue]);
  }

  /** A run that moves on without having searched for anything keeps the base. */
  lemma {:induction false} MoveKeepsBase(s: Sys, pc: Pc)
    requires Base(s) && !s.pc.Idle? && !s.pc.Creating? && !pc.Idle? && !pc.Creating? && !pc.Reopening?
    requires pc.work == s.pc.work && Searched(pc) == Searched(s.pc)
    ensures Base(s.(pc := pc))
  {
    hide OneEach, Sound, Own;
  }

  lemma {:induction false} DieKeepsBase(s: Sys)
    requires Base(s)
    ensures Base(s.(pc := Idle))
  {
    hide OneEach, Sound, Own;
  }

  lemma {:induction false} StartKeepsBase(s: Sys, plan: Plan)
    requires Base(s) && DistinctFindings(FindingsOf(plan))
    ensures Base(Happen(s, Start(plan)))
  {
    hide OneEach, Own, DistinctFindings;
  }

  /** Closing one of the listed issues, in two writes, or passing it over. */
  lemma {:induction false} ClosingKeepsBase(s: Sys)
    requires Base(s) && (s.pc.ClosingEnvironment? || s.pc.Closing?)
    ensures Base(StepRun(s))
  {
    hide Base;
    var work, k := s.pc.work, s.pc.k;
    if k >= |work.listed| {
      DieKeepsBase(s);
      if s.pc.ClosingEnvironment? {
        MoveKeepsBase(s, Filing(work, 0));
      }
    } else {
      var next := StepRun(s);
      CloseKeepsBase(s, work.listed[k].number);
      RetireKeepsBase(s, work.listed[k].number);
      MoveKeepsBase(s.(issues := next.issues), next.pc);
    }
  }

  /** Every API call but a search that overlooks an issue keeps the base. */
  lemma {:induction false} StepKeepsBase(s: Sys)
    requires Base(s) && !Overlooks(s)
    ensures Base(StepRun(s))
  {
    hide Base, Overlooks;
    match s.pc
    case Idle =>
    case ClosingEnvironment(_, _, _) => ClosingKeepsBase(s);
    case Filing(_, _) => FilingKeepsBase(s);
    case Reopening(work, i, n) =>
      ReopenKeepsBase(s, n);
      MoveKeepsBase(s.(issues := ReopenIssue(s.issues, n)), Filing(work, i + 1));
    case Creating(_, _) => CreatingKeepsBase(s);
    case Closing(_, _, _) => ClosingKeepsBase(s);
  }

  /** From step to step a run would file for the same findings, but for the one it is searching for. */
  lemma {:induction false} StepWouldFile(s: Sys, f: Fingerprint)
    requires Base(s) && !Overlooks(s) && !s.pc.Idle? && !StepRun(s).pc.Idle?
    ensures WouldFile(StepRun(s).issues, StepRun(s).pc.work, Searched(StepRun(s).pc), f)
      <==> WouldFile(s.issues, s.pc.work, Searched(s.pc), f) && !Searches(s.pc, f)
  {
    hide WouldFile;
    var next, work := StepRun(s), s.pc.work;
    if s.pc.Filing? {
      FilingWouldFile(s, f);
    } else if s.pc.Creating? {
      var finding := FindingsOf(work.plan)[s.pc.i];
      NewIssueKeepsFiling(s.issues, Issue(true, Some(finding.fingerprint), finding.criterion, true), work, s.pc.i + 1);
    } else if next.issues != s.issues {
      var n := if s.pc.Reopening? then s.pc.number else work.listed[s.pc.k].number;
      WriteKeepsFiling(s.issues, n, next.issues[n], work, Searched(s.pc));
    }
  }

  /** What a step leaves open was open before, or is the issue of the finding it has just searched for. */
  lemma {:induction false} StepOpens(s: Sys, n: nat)
    requires Base(s) && !s.pc.Idle? && n < |StepRun(s).issues| && StepRun(s).issues[n].open
      && StepRun(s).issues[n].fingerprint.Some?
    ensures || (n < |s.issues| && StepRun(s).issues[n] == s.issues[n])
      || ((s.pc.Reopening? || s.pc.Creating?)
          && StepRun(s).issues[n].fingerprint.value == FindingsOf(s.pc.work.plan)[s.pc.i].fingerprint)
  {
    hide ListsFingerprint, ClosedByHand, OneEach;
  }

  lemma {:induction false} StepWatched(s: Sys)
    requires Inv(s) && !s.pc.Idle? && !StepRun(s).pc.Idle?
    ensures NothingMissed(StepRun(s).issues, StepRun(s).pc.work, Searched(StepRun(s).pc))
  {
    hide WouldFile, StepRun, PcOk;
    InvOverlooksNothing(s);
    var next := StepRun(s);
    forall n | 0 <= n < |next.issues| && next.issues[n].mine && next.issues[n].open && next.issues[n].fingerprint.Some?
      ensures !WouldFile(next.issues, next.pc.work, Searched(next.pc), next.issues[n].fingerprint.value)
    {
      StepWouldFile(s, next.issues[n].fingerprint.value);
      StepOpens(s, n);
      if s.pc.Reopening? || s.pc.Creating? {
        SoughtInRange(s);
        SearchedIsOver(s.issues, s.pc.work, s.pc.i);
      }
    }
  }

  lemma {:induction false} SoughtInRange(s: Sys)
    requires Base(s) && (s.pc.Reopening? || s.pc.Creating?)
    ensures s.pc.i < |FindingsOf(s.pc.work.plan)| && DistinctFindings(FindingsOf(s.pc.work.plan))
      && Searched(s.pc) == s.pc.i + 1
  {
  }

  lemma {:induction false} StepKeeps(s: Sys)
    requires Inv(s)
    ensures Inv(StepRun(s))
  {
    hide Base, NothingMissed, Overlooks;
    InvOverlooksNothing(s);
    StepKeepsBase(s);
    if !s.pc.Idle? && !StepRun(s).pc.Idle? {
      StepWatched(s);
    }
  }

  /**
   Each run's findings have distinct fingerprints, and nobody reopens what the run under
   way would file an issue for.
   */
  ghost predicate Permitted(s: Sys, e: Event) {
    && (e.Start? ==> DistinctFindings(FindingsOf(e.plan)))
    && (e.Reopen? ==> MayReopen(s, e.number))
  }

  lemma {:induction false} EventKeepsBase(s: Sys, e: Event)
    requires Base(s) && (e.Start? ==> DistinctFindings(FindingsOf(e.plan))) && (e.Step? ==> !Overlooks(s))
    ensures Base(Happen(s, e))
  {
    hide Base, Overlooks;
    match e
    case Start(plan) => StartKeepsBase(s, plan);
    case Step => StepKeepsBase(s);
    case Die => DieKeepsBase(s);
    case Close(n) => CloseKeepsBase(s, n);
    case Reopen(n) => ReopenKeepsBase(s, n);
    case File(theirs) => if !theirs.mine { FileKeepsBase(s, theirs); }
  }

  lemma {:induction false} EventKeeps(s: Sys, e: Event)
    requires Inv(s) && Permitted(s, e)
    ensures Inv(Happen(s, e))
  {
    hide Base, NothingMissed, Overlooks;
    InvOverlooksNothing(s);
    EventKeepsBase(s, e);
    match e
    case Start(plan) => if s.pc.Idle? { StartKeeps(s, plan); }
    case Step => StepKeeps(s);
    case Die =>
    case Close(n) => if n < |s.issues| && !s.pc.Idle? { CloseWatched(s, n); }
    case Reopen(n) => ReopenKeeps(s, n);
    case File(theirs) => if !theirs.mine && !s.pc.Idle? { FileWatched(s, theirs); }
  }

  // ----------------------------------------------------------------- over histories

  type Schedule = seq<Event>

  function Exec(s: Sys, schedule: Schedule): Sys
    decreases |schedule|
  {
    if schedule == [] then s else Exec(Happen(s, schedule[0]), schedule[1..])
  }

  ghost predicate AllPermitted(s: Sys, schedule: Schedule)
    decreases |schedule|
  {
    schedule == [] || (Permitted(s, schedule[0]) && AllPermitted(Happen(s, schedule[0]), schedule[1..]))
  }

  /**
   A history in which each run's findings have distinct fingerprints and no run comes to
   search in vain for an issue that stands open. A person may reopen anything at any
   time, so long as it is closed again, or the run ends, before its finding is searched.
   */
  ghost predicate NeverOverlooks(s: Sys, schedule: Schedule)
    decreases |schedule|
  {
    schedule == []
    || ((schedule[0].Start? ==> DistinctFindings(FindingsOf(schedule[0].plan)))
        && (schedule[0].Step? ==> !Overlooks(s))
        && NeverOverlooks(Happen(s, schedule[0]), schedule[1..]))
  }

  lemma {:induction false} ExecKeepsBase(s: Sys, schedule: Schedule)
    requires Base(s) && NeverOverlooks(s, schedule)
    ensures Base(Exec(s, schedule))
    decreases |schedule|
  {
    hide Base, Overlooks;
    if schedule != [] {
      EventKeepsBase(s, schedule[0]);
      ExecKeepsBase(Happen(s, schedule[0]), schedule[1..]);
    }
  }

  /** Nothing is overlooked where nobody reopens what the run under way would file an issue for. */
  lemma {:induction false} PermittedNeverOverlooks(s: Sys, schedule: Schedule)
    requires Inv(s) && AllPermitted(s, schedule)
    ensures NeverOverlooks(s, schedule)
    decreases |schedule|
  {
    hide Inv, Overlooks;
    if schedule != [] {
      InvOverlooksNothing(s);
      EventKeeps(s, schedule[0]);
      PermittedNeverOverlooks(Happen(s, schedule[0]), schedule[1..]);
    }
  }

  /**
   Over any history of runs, deaths and people in which no search overlooks an open
   issue, at most one own issue carries each fingerprint, and no run files more than ten.
   */
  lemma {:induction false} OneIssuePerFinding(s: Sys, schedule: Schedule)
    requires s.pc.Idle? && OneEach(s.issues) && NeverOverlooks(s, schedule)
    ensures var now := Exec(s, schedule);
      && OneEach(now.issues)
      && (!now.pc.Idle? ==> now.ownAtStart <= Own(now.issues) <= now.ownAtStart + 10)
  {
    ExecKeepsBase(s, schedule);
  }

  /** And only then: what a search overlooks is filed a second time by the next two steps of the run. */
  lemma {:induction false} OverlookedIsFiledTwice(s: Sys)
    requires Base(s)
    ensures s.pc.Filing? ==> (OneEach(StepRun(StepRun(s)).issues) <==> !Overlooks(s))
  {
    if Overlooks(s) {
      var f := FindingsOf(s.pc.work.plan)[s.pc.i].fingerprint;
      var n :| 0 <= n < |s.issues| && Standing(s.issues[n], f);
      assert StepRun(StepRun(s)).issues[n].fingerprint == StepRun(StepRun(s)).issues[|s.issues|].fingerprint;
    } else {
      StepKeepsBase(s);
      if s.pc.Filing? && !Overlooks(StepRun(s)) {
        StepKeepsBase(StepRun(s));
      }
    }
  }

  /** An issue someone else filed is never qare's to close, reopen or retire, whatever marker it carries. */
  lemma {:induction false} TheirsAreLeftAlone(s: Sys, n: nat)
    requires Inv(s) && n < |s.issues| && !s.issues[n].mine
    ensures n < |StepRun(s).issues| && StepRun(s).issues[n] == s.issues[n]
  {
  }

  // ------------------------------------------------------- closed first, retired last

  /** No own issue stands open without its marker, where no run would find it. */
  ghost predicate NoneLost(issues: seq<Issue>) {
    forall n :: 0 <= n < |issues| && issues[n].mine && issues[n].fingerprint.None? ==> !issues[n].open
  }

  /** A run has closed an issue and is about to retire its markers. */
  predicate WillRetire(pc: Pc, n: nat) {
    match pc
    case ClosingEnvironment(work, k, closed) =>
      closed && k < |work.listed| && work.listed[k].number == n && work.listed[k].fingerprint == ENVIRONMENT
    case Closing(work, k, closed) =>
      && closed && k < |work.listed| && work.listed[k].number == n
      && work.listed[k].criterion.Some? && work.listed[k].criterion.value in RecoveredOf(work.plan)
    case _ => false
  }

  /** Whatever happens next, a run that dies here leaves no issue behind that none finds again. */
  ghost predicate NothingToLose(s: Sys) {
    && NoneLost(s.issues)
    && (forall n: nat :: n < |s.issues| && s.issues[n].mine && WillRetire(s.pc, n) ==> !s.issues[n].open)
    && (s.pc.Reopening? ==> s.pc.number < |s.issues| && s.issues[s.pc.number].fingerprint.Some?)
  }

  /** Reopening an own issue whose markers are gone, or are about to go. */
  predicate Loses(s: Sys, n: nat) {
    n < |s.issues| && s.issues[n].mine && (s.issues[n].fingerprint.None? || WillRetire(s.pc, n))
  }

  lemma {:induction false} StepLosesNothing(s: Sys)
    requires NothingToLose(s)
    ensures NothingToLose(StepRun(s))
  {
    hide ListsFingerprint, RecoveredOf;
    if s.pc.Filing? {
      assert !StepRun(s).pc.ClosingEnvironment? && (StepRun(s).pc.Closing? ==> !StepRun(s).pc.closed);
    }
  }

  lemma {:induction false} EventLosesNothing(s: Sys, e: Event)
    requires NothingToLose(s) && (e.Reopen? ==> !Loses(s, e.number))
    ensures NothingToLose(Happen(s, e))
  {
    if e.Step? {
      StepLosesNothing(s);
    }
  }

  /** A history in which nobody reopens an issue whose markers are gone or about to go. */
  ghost predicate ReopensNothingRetired(s: Sys, schedule: Schedule)
    decreases |schedule|
  {
    schedule == []
    || ((schedule[0].Reopen? ==> !Loses(s, schedule[0].number))
      && ReopensNothingRetired(Happen(s, schedule[0]), schedule[1..]))
  }

  lemma {:induction false} ExecLosesNothing(s: Sys, schedule: Schedule)
    requires NothingToLose(s) && ReopensNothingRetired(s, schedule)
    ensures NothingToLose(Exec(s, schedule))
    decreases |schedule|
  {
    hide NothingToLose, Happen, Loses;
    if schedule != [] {
      EventLosesNothing(s, schedule[0]);
      ExecLosesNothing(Happen(s, schedule[0]), schedule[1..]);
    }
  }

  lemma {:induction false} NobodyReopens(s: Sys, schedule: Schedule)
    requires forall k :: 0 <= k < |schedule| ==> !schedule[k].Reopen?
    ensures ReopensNothingRetired(s, schedule)
    decreases |schedule|
  {
    if schedule != [] {
      assert forall k :: 0 <= k < |schedule| - 1 ==> schedule[1..][k] == schedule[k + 1];
      NobodyReopens(Happen(s, schedule[0]), schedule[1..]);
    }
  }

  /** Every own issue that stands open is one the next run lists. */
  ghost predicate AllListed(issues: seq<Issue>) {
    forall n :: 0 <= n < |issues| && issues[n].mine && issues[n].open ==> Lists(ListOpen(issues), n)
  }

  /**
   An issue is closed first and its markers are retired last, so wherever a run dies no
   issue is lost. Over any history of runs, whatever their plans, of deaths and of people
   who close issues, file their own and reopen any but those whose markers are gone or
   that a run has closed and is about to retire, an own issue that stands open is one the
   next run finds.
   */
  lemma {:induction false} NoIssueIsLost(s: Sys, schedule: Schedule)
    requires s.pc.Idle? && NoneLost(s.issues) && ReopensNothingRetired(s, schedule)
    ensures NoneLost(Exec(s, schedule).issues) && AllListed(Exec(s, schedule).issues)
  {
    assert NothingToLose(s);
    ExecLosesNothing(s, schedule);
  }

  /** So no death of any run loses an issue where nobody reopens one. */
  lemma {:induction false} NoDeathLosesAnIssue(s: Sys, schedule: Schedule)
    requires s.pc.Idle? && NoneLost(s.issues) && forall k :: 0 <= k < |schedule| ==> !schedule[k].Reopen?
    ensures NoneLost(Exec(s, schedule).issues) && AllListed(Exec(s, schedule).issues)
  {
    NobodyReopens(s, schedule);
    NoIssueIsLost(s, schedule);
  }

  /** And only other than those: reopening one of them loses it, there and then or at the run's next step. */
  lemma {:induction false} ReopeningLosesExactlyWhen(s: Sys, n: nat)
    requires NothingToLose(s)
    ensures var reopened := Happen(s, Reopen(n));
      NoneLost(reopened.issues) && NoneLost(StepRun(reopened).issues) <==> !Loses(s, n)
  {
    var reopened := Happen(s, Reopen(n));
    if Loses(s, n) {
      assert reopened.issues[n].mine && reopened.issues[n].open;
      if WillRetire(s.pc, n) {
        assert StepRun(reopened).issues[n].fingerprint.None? && StepRun(reopened).issues[n].open;
      }
    } else {
      EventLosesNothing(s, Reopen(n));
      StepLosesNothing(reopened);
    }
  }

  // --------------------------------------------------------- runs left to themselves

  function Phase(pc: Pc): nat {
    match pc
    case Idle => 0
    case Closing(_, _, _) => 1
    case ClosingEnvironment(_, _, _) => 3
    case _ => 2
  }

  function Left(pc: Pc): nat {
    match pc
    case Idle => 0
    case ClosingEnvironment(work, k, closed) => 2 * Max(0, |work.listed| - k) + if closed then 0 else 1
    case Closing(work, k, closed) => 2 * Max(0, |work.listed| - k) + if closed then 0 else 1
    case Filing(work, i) => 2 * Max(0, |FindingsOf(work.plan)| - i) + 1
    case _ => 2 * Max(0, |FindingsOf(pc.work.plan)| - pc.i - 1) + 2
  }

  /** Every step brings a run nearer to its end, whatever state it is in. */
  lemma {:induction false} StepGoesOn(s: Sys)
    requires !s.pc.Idle?
    ensures Phase(StepRun(s).pc) < Phase(s.pc)
      || (Phase(StepRun(s).pc) == Phase(s.pc) && Left(StepRun(s).pc) < Left(s.pc))
    ensures Inv(s) ==> Inv(StepRun(s))
  {
    hide Inv;
    if Inv(s) {
      StepKeeps(s);
    }
  }

  /** A run that nothing disturbs, to its end. */
  ghost function Finish(s: Sys): (end: Sys)
    ensures end.pc.Idle? && (Inv(s) ==> Inv(end))
    decreases Phase(s.pc), Left(s.pc)
  {
    hide Inv, StepRun, Left, Phase;
    if s.pc.Idle? then s
    else
      StepGoesOn(s);
      Finish(StepRun(s))
  }

  // ------------------------------------------------- an issue reopened during a run

  lemma {:induction false} SearchBeside(issues: seq<Issue>, n: nat, now: Issue, f: Fingerprint)
    requires n < |issues| && !Standing(issues[n], f) && !Standing(now, f)
    ensures ClosedByHand(issues[n := now], f) == ClosedByHand(issues, f)
  {
    var before, after := ClosedByHand(issues, f), ClosedByHand(issues[n := now], f);
    if before.Some? {
      assert issues[n := now][before.value] == issues[before.value];
    }
    if after.Some? {
      assert issues[n := now][after.value] == issues[after.value];
    }
  }

  /** Everywhere but where the run searches for this issue's finding, a step does the same with the issue open. */
  lemma {:induction false} StepBesideReopened(s: Sys, n: nat)
    requires Inv(s) && !MayReopen(s, n) && !Searches(s.pc, s.issues[n].fingerprint.value)
    ensures Inv(StepRun(s)) && !MayReopen(StepRun(s), n)
    ensures StepRun(Happen(s, Reopen(n))) == Happen(StepRun(s), Reopen(n))
  {
    StepKeeps(s);
    SameStepBesideReopened(s, n);
    hide WouldFile, StepRun, PcOk, OneEach;
    InvOverlooksNothing(s);
    StepWouldFile(s, s.issues[n].fingerprint.value);
  }

  lemma {:induction false} SameStepBesideReopened(s: Sys, n: nat)
    requires Inv(s) && !MayReopen(s, n) && !Searches(s.pc, s.issues[n].fingerprint.value)
    ensures !StepRun(s).pc.Idle? && n < |StepRun(s).issues| && StepRun(s).issues[n] == s.issues[n]
    ensures StepRun(Happen(s, Reopen(n))) == Happen(StepRun(s), Reopen(n))
  {
    hide Unfiled, OneEach, NothingMissed;
    var f, now := s.issues[n].fingerprint.value, s.issues[n].(open := true);
    UnlistedNumber(s, n);
    if s.pc.Filing? && s.pc.i < |FindingsOf(s.pc.work.plan)| {
      SearchBeside(s.issues, n, now, FindingsOf(s.pc.work.plan)[s.pc.i].fingerprint);
    }
  }

  lemma {:induction false} UnlistedNumber(s: Sys, n: nat)
    requires Inv(s) && !MayReopen(s, n)
    ensures !Lists(s.pc.work.listed, n)
  {
    hide Unfiled;
  }

  /** Two own issues with one marker, neither of which the run under way listed. */
  ghost predicate Twice(s: Sys, m: nat, n: nat) {
    && m < n < |s.issues| && s.issues[m].mine && s.issues[n].mine
    && s.issues[m].fingerprint.Some? && s.issues[m].fingerprint == s.issues[n].fingerprint
    && (!s.pc.Idle? ==> !Lists(s.pc.work.listed, m) && !Lists(s.pc.work.listed, n))
  }

  lemma {:induction false} StepKeepsTwice(s: Sys, m: nat, n: nat)
    requires Twice(s, m, n)
    ensures Twice(StepRun(s), m, n)
  {
    hide ListsFingerprint, ClosedByHand;
  }

  lemma {:induction false} TwiceStays(s: Sys, m: nat, n: nat)
    requires Twice(s, m, n)
    ensures !OneEach(Finish(s).issues)
    decreases Phase(s.pc), Left(s.pc)
  {
    if s.pc.Idle? {
      TwiceIsTwo(s, m, n);
    } else {
      hide Twice, StepRun, OneEach, Phase, Left;
      StepGoesOn(s);
      StepKeepsTwice(s, m, n);
      TwiceStays(StepRun(s), m, n);
    }
  }

  lemma {:induction false} TwiceIsTwo(s: Sys, m: nat, n: nat)
    requires Twice(s, m, n)
    ensures !OneEach(s.issues)
  {
  }

  /** What the search overlooks is filed once more. */
  lemma {:induction false} SearchFilesTwice(s: Sys, n: nat)
    requires Inv(s) && !MayReopen(s, n) && Searches(s.pc, s.issues[n].fingerprint.value)
    ensures !OneEach(Finish(Happen(s, Reopen(n))).issues)
  {
    var f, reopened := s.issues[n].fingerprint.value, Happen(s, Reopen(n));
    assert ClosedByHand(reopened.issues, f).None?;
    var filed := StepRun(StepRun(reopened));
    UnlistedNumber(s, n);
    assert !Lists(s.pc.work.listed, |s.issues|);
    TwiceStays(filed, n, |s.issues|);
  }

  lemma {:induction false} ReopenedIsFiledTwice(s: Sys, n: nat)
    requires Inv(s) && !MayReopen(s, n)
    ensures !OneEach(Finish(Happen(s, Reopen(n))).issues)
    decreases Phase(s.pc), Left(s.pc)
  {
    hide WouldFile, Inv;
    if Searches(s.pc, s.issues[n].fingerprint.value) {
      SearchFilesTwice(s, n);
    } else {
      StepBesideReopened(s, n);
      ReopenedIsFiledTwice(StepRun(s), n);
    }
  }

  /**
   An issue reopened at any moment of a run that is left to itself otherwise makes it
   file a second one if and only if the run would file for the issue's finding: the
   issue is own, closed, marked and unlisted, its finding is still to be searched for,
   and the findings before that one leave the run an issue to file.
   */
  lemma {:induction false} SecondIssueExactlyWhen(s: Sys, n: nat)
    requires Inv(s)
    ensures OneEach(Finish(Happen(s, Reopen(n))).issues) <==> MayReopen(s, n)
  {
    hide WouldFile, MayReopen;
    if MayReopen(s, n) {
      ReopenKeeps(s, n);
    } else {
      ReopenedIsFiledTwice(s, n);
    }
  }

  /** So it happens: the run finds "b" failing after "a", and "b"'s closed issue is reopened while it files "a"'s. */
  lemma {:induction false} ReopenedWhileFiling()
    ensures var closed := Issue(true, Some("b"), None, false);
      var plan := Checked(false, [Finding("a", None), Finding("b", None)], {});
      !OneEach(Finish(Happen(Happen(Sys([closed], Idle, 0), Start(plan)), Reopen(0))).issues)
  {
    var closed := Issue(true, Some("b"), None, false);
    var plan := Checked(false, [Finding("a", None), Finding("b", None)], {});
    var s := Sys([closed], Idle, 0);
    StartKeeps(s, plan);
    var started := Happen(s, Start(plan));
    assert ListOpen([closed]) == [] by {
      assert [closed][..0] == [];
    }
    assert Unfiled([closed], [], plan.findings, 0, 1) <= 1;
    assert plan.findings[1].fingerprint == "b";
    SecondIssueExactlyWhen(started, 0);
  }

  /** How many of the findings `i` to `j` have no issue. */
  function Missing(issues: seq<Issue>, findings: seq<Finding>, i: nat, j: nat): nat
    requires j <= |findings|
  {
    Unfiled(issues, [], findings, i, j)
  }

  /** Each finding's issue is filed for the finding's criterion, which the run did not prove. */
  ghost predicate Unproved(issues: seq<Issue>, plan: Plan) {
    && plan.Checked?
    && (forall j :: 0 <= j < |plan.findings| ==> plan.findings[j].fingerprint != ENVIRONMENT)
    && (forall j :: 0 <= j < |plan.findings| && plan.findings[j].criterion.Some? ==>
      plan.findings[j].criterion.value !in plan.recovered)
    && ForItsCriterion(issues, plan.findings)
  }

  ghost predicate ForItsCriterion(issues: seq<Issue>, findings: seq<Finding>) {
    forall n, j :: 0 <= n < |issues| && 0 <= j < |findings| && Standing(issues[n], findings[j].fingerprint) ==>
      issues[n].criterion == findings[j].criterion
  }

  /** What a run listed still stands, but for what it has closed itself. */
  ghost predicate ListStands(issues: seq<Issue>, work: Work) {
    forall k :: 0 <= k < |work.listed| && work.listed[k].fingerprint != ENVIRONMENT ==>
      work.listed[k].number < |issues| && Standing(issues[work.listed[k].number], work.listed[k].fingerprint)
  }

  /** The same findings are covered before and after. */
  ghost predicate SameCover(before: seq<Issue>, after: seq<Issue>, findings: seq<Finding>) {
    forall j :: 0 <= j < |findings| ==>
      (Covered(before, findings[j].fingerprint) <==> Covered(after, findings[j].fingerprint))
  }

  /** Writing to an issue that stands for none of the findings changes none of their covers. */
  lemma {:induction false} OtherIssueSameCover(issues: seq<Issue>, n: nat, now: Issue, findings: seq<Finding>)
    requires n < |issues|
    requires forall j :: 0 <= j < |findings| ==>
      (Standing(issues[n], findings[j].fingerprint) <==> Standing(now, findings[j].fingerprint))
    ensures SameCover(issues, issues[n := now], findings)
  {
    forall j | 0 <= j < |findings| {
      WriteKeepsCover(issues, n, now, findings[j].fingerprint);
    }
  }

  /** Closing what recovered takes no finding's issue away. */
  lemma {:induction false} ClosingCovers(s: Sys)
    requires Inv(s) && s.pc.Closing? && Unproved(s.issues, s.pc.work.plan)
    ensures SameCover(s.issues, Finish(s).issues, s.pc.work.plan.findings)
    ensures ForItsCriterion(Finish(s).issues, s.pc.work.plan.findings)
    decreases Left(s.pc)
  {
    var work, k := s.pc.work, s.pc.k;
    StepKeeps(s);
    var next := StepRun(s);
    if k < |work.listed| {
      var n := work.listed[k].number;
      if next.issues != s.issues {
        OtherIssueSameCover(s.issues, n, next.issues[n], work.plan.findings);
      }
      assert ForItsCriterion(next.issues, work.plan.findings);
      ClosingCovers(next);
    } else {
      assert Finish(s) == Finish(next) == next;
    }
  }

  /** What a run that goes on filing leaves: of the findings still to come, all but as many as it may still file. */
  ghost predicate FilesTheRest(s: Sys, end: seq<Issue>)
    requires s.pc.Filing? && s.pc.work.plan.Checked? && s.pc.i <= |s.pc.work.plan.findings|
  {
    var findings := s.pc.work.plan.findings;
    && Missing(end, findings, 0, |findings|)
       == Missing(s.issues, findings, 0, s.pc.i)
         + Max(0, Missing(s.issues, findings, s.pc.i, |findings|) - (MAX_NEW_ISSUES - s.pc.work.filed))
    && ForItsCriterion(end, findings)
  }

  lemma {:induction false} CoveredGoesOn(s: Sys, next: Sys, end: seq<Issue>)
    requires s.pc.Filing? && next.pc == Filing(s.pc.work, s.pc.i + 1) && s.pc.work.plan.Checked?
      && s.pc.i < |s.pc.work.plan.findings|
    requires SameCover(s.issues, next.issues, s.pc.work.plan.findings)
    requires s.pc.work.filed >= MAX_NEW_ISSUES || Covered(s.issues, s.pc.work.plan.findings[s.pc.i].fingerprint)
    requires s.pc.work.filed <= MAX_NEW_ISSUES
    requires FilesTheRest(next, end)
    ensures FilesTheRest(s, end)
  {
    var findings, i := s.pc.work.plan.findings, s.pc.i;
    SameCoverSameUnfiled(s.issues, next.issues, [], findings, 0, i + 1);
    SameCoverSameUnfiled(s.issues, next.issues, [], findings, i + 1, |findings|);
    UnfiledSplits(s.issues, [], findings, i, |findings|);
  }

  lemma {:induction false} FiledGoesOn(s: Sys, next: Sys, issue: Issue, end: seq<Issue>)
    requires s.pc.Filing? && s.pc.work.plan.Checked? && s.pc.i < |s.pc.work.plan.findings|
      && DistinctFindings(s.pc.work.plan.findings)
    requires next.pc == Filing(s.pc.work.(filed := s.pc.work.filed + 1), s.pc.i + 1)
      && next.issues == s.issues + [issue]
    requires s.pc.work.filed < MAX_NEW_ISSUES
    requires !Covered(s.issues, s.pc.work.plan.findings[s.pc.i].fingerprint)
    requires Standing(issue, s.pc.work.plan.findings[s.pc.i].fingerprint)
    requires FilesTheRest(next, end)
    ensures FilesTheRest(s, end)
  {
    var findings, i := s.pc.work.plan.findings, s.pc.i;
    forall j | 0 <= j < |findings|
      ensures Covered(next.issues, findings[j].fingerprint) <==> Covered(s.issues, findings[j].fingerprint) || j == i
    {
      NewIssueCovers(s.issues, issue, findings[j].fingerprint);
    }
    SameCoverSameUnfiled(s.issues, next.issues, [], findings, 0, i);
    SameCoverSameUnfiled(s.issues, next.issues, [], findings, i + 1, |findings|);
    UnfiledSplits(s.issues, [], findings, i, |findings|);
  }

  lemma {:induction false} ListedIsCovered(issues: seq<Issue>, work: Work, f: Fingerprint)
    requires ListStands(issues, work) && ListsFingerprint(work.listed, f) && f != ENVIRONMENT
    ensures Covered(issues, f)
  {
    var k :| 0 <= k < |work.listed| && work.listed[k].fingerprint == f;
    assert Standing(issues[work.listed[k].number], f);
  }

  lemma {:induction false} FilingCovers(s: Sys)
    requires Inv(s) && s.pc.Filing? && Unproved(s.issues, s.pc.work.plan) && ListStands(s.issues, s.pc.work)
    ensures FilesTheRest(s, Finish(s).issues)
    decreases Left(s.pc), 1
  {
    hide Missing, Covered, FilesTheRest;
    var work, i := s.pc.work, s.pc.i;
    var findings := work.plan.findings;
    var end := Finish(s).issues;
    StepKeeps(s);
    var next := StepRun(s);
    if i >= |findings| {
      ClosingCovers(next);
      LastFiling(s, end);
    } else if ListsFingerprint(work.listed, findings[i].fingerprint) {
      ListedIsCovered(s.issues, work, findings[i].fingerprint);
      FilingCovers(next);
      CoveredGoesOn(s, next, end);
    } else {
      UnlistedCovers(s);
    }
  }

  lemma {:induction false} LastFiling(s: Sys, end: seq<Issue>)
    requires s.pc.Filing? && s.pc.work.plan.Checked? && s.pc.i == |s.pc.work.plan.findings|
      && s.pc.work.filed <= MAX_NEW_ISSUES
    requires SameCover(s.issues, end, s.pc.work.plan.findings) && ForItsCriterion(end, s.pc.work.plan.findings)
    ensures FilesTheRest(s, end)
  {
    SameCoverSameUnfiled(s.issues, end, [], s.pc.work.plan.findings, 0, s.pc.i);
  }

  lemma {:induction false} UnlistedCovers(s: Sys)
    requires Inv(s) && s.pc.Filing? && Unproved(s.issues, s.pc.work.plan) && ListStands(s.issues, s.pc.work)
    requires s.pc.i < |s.pc.work.plan.findings|
    requires !ListsFingerprint(s.pc.work.listed, s.pc.work.plan.findings[s.pc.i].fingerprint)
    ensures FilesTheRest(s, Finish(s).issues)
    decreases Left(s.pc), 0
  {
    hide Missing, Covered, FilesTheRest;
    var work, i := s.pc.work, s.pc.i;
    var f := work.plan.findings[i].fingerprint;
    match ClosedByHand(s.issues, f)
    case Some(n) =>
      var next := TwoSteps(s);
      ReopeningCovers(s, n);
      FilingCovers(next);
      CoveredGoesOn(s, next, Finish(s).issues);
    case None =>
      if work.filed >= MAX_NEW_ISSUES {
        StepKeeps(s);
        FilingCovers(StepRun(s));
        CoveredGoesOn(s, StepRun(s), Finish(s).issues);
      } else {
        NothingFoundIsNothingThere(s);
        NoneIsUncovered(s.issues, f);
        var next := TwoSteps(s);
        CreatingCovers(s);
        FilingCovers(next);
        FiledGoesOn(s, next, Issue(true, Some(f), work.plan.findings[i].criterion, true), Finish(s).issues);
      }
  }

  lemma {:induction false} NoneIsUncovered(issues: seq<Issue>, f: Fingerprint)
    requires NoneStanding(issues, f)
    ensures !Covered(issues, f)
  {
  }

  lemma {:induction false} TwoSteps(s: Sys) returns (next: Sys)
    requires Inv(s) && !s.pc.Idle? && !StepRun(s).pc.Idle?
    ensures next == StepRun(StepRun(s)) && Inv(next) && Finish(s) == Finish(next)
  {
    StepKeeps(s);
    StepKeeps(StepRun(s));
    next := StepRun(StepRun(s));
  }

  lemma {:induction false} ReopeningCovers(s: Sys, n: nat)
    requires Inv(s) && s.pc.Filing? && Unproved(s.issues, s.pc.work.plan) && ListStands(s.issues, s.pc.work)
    requires s.pc.i < |s.pc.work.plan.findings|
    requires !ListsFingerprint(s.pc.work.listed, s.pc.work.plan.findings[s.pc.i].fingerprint)
    requires ClosedByHand(s.issues, s.pc.work.plan.findings[s.pc.i].fingerprint) == Some(n)
    ensures var next := StepRun(StepRun(s));
      && next.pc == Filing(s.pc.work, s.pc.i + 1)
      && SameCover(s.issues, next.issues, s.pc.work.plan.findings)
      && Unproved(next.issues, s.pc.work.plan) && ListStands(next.issues, s.pc.work)
    ensures Covered(s.issues, s.pc.work.plan.findings[s.pc.i].fingerprint)
  {
    var now := s.issues[n].(open := true);
    OtherIssueSameCover(s.issues, n, now, s.pc.work.plan.findings);
  }

  lemma {:induction false} CreatingCovers(s: Sys)
    requires Inv(s) && s.pc.Filing? && Unproved(s.issues, s.pc.work.plan) && ListStands(s.issues, s.pc.work)
    requires s.pc.i < |s.pc.work.plan.findings| && s.pc.work.filed < MAX_NEW_ISSUES
    requires !ListsFingerprint(s.pc.work.listed, s.pc.work.plan.findings[s.pc.i].fingerprint)
    requires ClosedByHand(s.issues, s.pc.work.plan.findings[s.pc.i].fingerprint).None?
    ensures var next, finding := StepRun(StepRun(s)), s.pc.work.plan.findings[s.pc.i];
      && next.pc == Filing(s.pc.work.(filed := s.pc.work.filed + 1), s.pc.i + 1)
      && next.issues == s.issues + [Issue(true, Some(finding.fingerprint), finding.criterion, true)]
      && Unproved(next.issues, s.pc.work.plan) && ListStands(next.issues, next.pc.work)
  {
    var findings, i := s.pc.work.plan.findings, s.pc.i;
    var issue := Issue(true, Some(findings[i].fingerprint), findings[i].criterion, true);
    forall j | 0 <= j < |findings| && Standing(issue, findings[j].fingerprint) ensures j == i {}
    assert ForItsCriterion(s.issues + [issue], findings);
  }

  /** Closing the environment's issue takes no finding's issue away. */
  lemma {:induction false} EnvironmentCovers(s: Sys)
    requires Inv(s) && s.pc.ClosingEnvironment? && Unproved(s.issues, s.pc.work.plan) && ListStands(s.issues, s.pc.work)
    requires s.pc.work.filed == 0
    ensures FilesTheRest(Sys(s.issues, Filing(s.pc.work, 0), s.ownAtStart), Finish(s).issues)
    decreases Left(s.pc)
  {
    hide Missing, Covered, FilesTheRest;
    var work, k := s.pc.work, s.pc.k;
    StepKeeps(s);
    var next := StepRun(s);
    if k < |work.listed| {
      var n := work.listed[k].number;
      if next.issues != s.issues {
        EnvironmentIsNoFinding(s, n);
      }
      EnvironmentCovers(next);
      SameStart(s.issues, next.issues, work, s.ownAtStart, Finish(s).issues);
    } else {
      FilingCovers(next);
    }
  }

  lemma {:induction false} EnvironmentIsNoFinding(s: Sys, n: nat)
    requires Inv(s) && s.pc.ClosingEnvironment? && Unproved(s.issues, s.pc.work.plan) && ListStands(s.issues, s.pc.work)
    requires s.pc.k < |s.pc.work.listed| && n == s.pc.work.listed[s.pc.k].number && StepRun(s).issues != s.issues
    ensures SameCover(s.issues, StepRun(s).issues, s.pc.work.plan.findings)
    ensures Unproved(StepRun(s).issues, s.pc.work.plan) && ListStands(StepRun(s).issues, s.pc.work)
  {
    OtherIssueSameCover(s.issues, n, StepRun(s).issues[n], s.pc.work.plan.findings);
  }

  lemma {:induction false} SameStart(before: seq<Issue>, after: seq<Issue>, work: Work, own: nat, end: seq<Issue>)
    requires work.plan.Checked? && SameCover(before, after, work.plan.findings)
    requires FilesTheRest(Sys(after, Filing(work, 0), own), end)
    ensures FilesTheRest(Sys(before, Filing(work, 0), own), end)
  {
    SameCoverSameUnfiled(before, after, [], work.plan.findings, 0, |work.plan.findings|);
  }

  /**
   A run that nothing disturbs leaves ten fewer of its standing findings without an
   issue, or none.
   */
  lemma {:induction false} RunFilesTen(s: Sys, plan: Plan)
    requires Inv(s) && s.pc.Idle? && Unproved(s.issues, plan) && DistinctFindings(plan.findings)
    ensures Inv(Happen(s, Start(plan)))
    ensures var n, end := |plan.findings|, Finish(Happen(s, Start(plan))).issues;
      && Missing(end, plan.findings, 0, n) == Max(0, Missing(s.issues, plan.findings, 0, n) - 10)
      && ForItsCriterion(end, plan.findings)
  {
    StartKeeps(s, plan);
    var started := Happen(s, Start(plan));
    assert ListStands(s.issues, started.pc.work);
    if plan.environmentUp {
      EnvironmentCovers(started);
    } else {
      FilingCovers(started);
    }
  }

  /** The state after runs of these plans, one after another, each left to itself. */
  ghost function RunAll(s: Sys, plans: seq<Plan>): Sys
    requires Inv(s) && s.pc.Idle? && forall k :: 0 <= k < |plans| ==> DistinctFindings(FindingsOf(plans[k]))
    decreases |plans|
  {
    if plans == [] then s
    else
      StartKeeps(s, plans[0]);
      RunAll(Finish(Happen(s, Start(plans[0]))), plans[1..])
  }

  ghost predicate Stand(issues: seq<Issue>, findings: seq<Finding>, plans: seq<Plan>) {
    && DistinctFindings(findings)
    && forall k :: 0 <= k < |plans| ==> plans[k].Checked? && plans[k].findings == findings && Unproved(issues, plans[k])
  }

  /**
   Findings that stand run after run all have an issue after one run for every ten
   of them.
   */
  lemma {:induction false} EveryStandingFindingIsFiled(s: Sys, findings: seq<Finding>, plans: seq<Plan>)
    requires Inv(s) && s.pc.Idle? && Stand(s.issues, findings, plans)
    ensures Missing(RunAll(s, plans).issues, findings, 0, |findings|)
      == Max(0, Missing(s.issues, findings, 0, |findings|) - 10 * |plans|)
    decreases |plans|
  {
    hide Missing, Inv, Happen, Finish, ForItsCriterion, Max;
    if plans == [] {
      NotBelowNothing(Missing(s.issues, findings, 0, |findings|));
    } else {
      RunFilesTen(s, plans[0]);
      var next := Finish(Happen(s, Start(plans[0])));
      StillStand(s.issues, next.issues, findings, plans);
      EveryStandingFindingIsFiled(next, findings, plans[1..]);
      TenEach(Missing(s.issues, findings, 0, |findings|), |plans|);
      assert RunAll(s, plans) == RunAll(next, plans[1..]);
    }
  }

  lemma {:induction false} NotBelowNothing(m: nat)
    ensures Max(0, m - MAX_NEW_ISSUES * 0) == m && Max(0, m) == m
  {
  }

  lemma {:induction false} TenEach(m: nat, n: nat)
    requires n > 0
    ensures Max(0, Max(0, m - MAX_NEW_ISSUES) - MAX_NEW_ISSUES * (n - 1)) == Max(0, m - MAX_NEW_ISSUES * n)
  {
    assert MAX_NEW_ISSUES * (n - 1) == MAX_NEW_ISSUES * n - MAX_NEW_ISSUES;
    assert MAX_NEW_ISSUES * (n - 1) >= 0;
  }

  lemma {:induction false} StillStand(before: seq<Issue>, after: seq<Issue>, findings: seq<Finding>, plans: seq<Plan>)
    requires Stand(before, findings, plans) && plans != [] && ForItsCriterion(after, findings)
    ensures Stand(after, findings, plans[1..])
  {
    hide ForItsCriterion;
    forall k | 0 <= k < |plans| - 1
      ensures plans[1..][k].Checked? && plans[1..][k].findings == findings && Unproved(after, plans[1..][k])
    {
      assert plans[1..][k] == plans[k + 1] && Unproved(before, plans[k + 1]);
    }
  }

  lemma {:induction false} NoneMissingIsAllCovered(issues: seq<Issue>, findings: seq<Finding>, n: nat)
    requires n <= |findings|
    ensures Missing(issues, findings, 0, n) <= n
    ensures Missing(issues, findings, 0, n) == 0 ==> forall j :: 0 <= j < n ==> Covered(issues, findings[j].fingerprint)
  {
    if n > 0 {
      NoneMissingIsAllCovered(issues, findings, n - 1);
    }
  }

  /** One run for every ten findings is enough for all of them. */
  lemma {:induction false} TenARunIsEnough(s: Sys, findings: seq<Finding>, plans: seq<Plan>)
    requires Inv(s) && s.pc.Idle? && Stand(s.issues, findings, plans) && 10 * |plans| >= |findings|
    ensures forall j :: 0 <= j < |findings| ==> Covered(RunAll(s, plans).issues, findings[j].fingerprint)
  {
    hide Missing, Inv, RunAll, Covered;
    EveryStandingFindingIsFiled(s, findings, plans);
    NoneMissingIsAllCovered(s.issues, findings, |findings|);
    NoneMissingIsAllCovered(RunAll(s, plans).issues, findings, |findings|);
  }

  // ------------------------------------------------- what a run does to each issue

  const RETIRED := Issue(true, None, None, false)

  predicate IsOneOf(findings: seq<Finding>, i: nat, fingerprint: Fingerprint) {
    exists j :: i <= j < |findings| && findings[j].fingerprint == fingerprint
  }

  /**
   What an undisturbed run leaves of an issue it found: what recovered is closed and
   its markers retired, what a person closed and still fails is reopened, and
   everything else is left alone.
   */
  function AfterRun(issue: Issue, plan: Plan): Issue {
    if !issue.mine || issue.fingerprint.None? then issue
    else if issue.open then
      if (plan.Checked? && plan.environmentUp && issue.fingerprint.value == ENVIRONMENT)
         || (issue.criterion.Some? && issue.criterion.value in RecoveredOf(plan)) then RETIRED
      else issue
    else if IsOneOf(FindingsOf(plan), 0, issue.fingerprint.value) then issue.(open := true)
    else issue
  }

  predicate ClosesLater(work: Work, k: nat, n: nat) {
    exists p :: k <= p < |work.listed| && work.listed[p].number == n
      && work.listed[p].criterion.Some? && work.listed[p].criterion.value in RecoveredOf(work.plan)
  }

  predicate EnvironmentLater(work: Work, k: nat, n: nat) {
    exists p :: k <= p < |work.listed| && work.listed[p].number == n && work.listed[p].fingerprint == ENVIRONMENT
  }

  lemma {:induction false} ClosingDoes(s: Sys, n: nat)
    requires Inv(s) && s.pc.Closing? && !s.pc.closed && n < |s.issues|
    ensures n < |Finish(s).issues|
    ensures Finish(s).issues[n] == if ClosesLater(s.pc.work, s.pc.k, n) then RETIRED else s.issues[n]
    decreases Left(s.pc)
  {
    hide Inv;
    var work, k := s.pc.work, s.pc.k;
    if k >= |work.listed| {
      StepKeeps(s);
      assert Finish(s) == Finish(StepRun(s)) == StepRun(s);
    } else if work.listed[k].criterion.None? || work.listed[k].criterion.value !in RecoveredOf(work.plan) {
      StepKeeps(s);
      ClosingDoes(StepRun(s), n);
    } else {
      ListedIsOwn(s, k);
      var next := TwoSteps(s);
      ClosingDoes(next, n);
    }
  }

  lemma {:induction false} ListedIsOwn(s: Sys, k: nat)
    requires Inv(s) && !s.pc.Idle? && k < |s.pc.work.listed|
    ensures s.pc.work.listed[k].number < |s.issues| && s.issues[s.pc.work.listed[k].number].mine
  {
  }

  lemma {:induction false} EnvironmentDoes(s: Sys, n: nat) returns (filing: Sys)
    requires Inv(s) && s.pc.ClosingEnvironment? && !s.pc.closed && n < |s.issues|
    ensures Inv(filing) && filing.pc == Filing(s.pc.work, 0) && Finish(filing) == Finish(s)
    ensures n < |filing.issues|
    ensures filing.issues[n] == if EnvironmentLater(s.pc.work, s.pc.k, n) then RETIRED else s.issues[n]
    decreases Left(s.pc)
  {
    hide Finish, Inv;
    var work, k := s.pc.work, s.pc.k;
    if k >= |work.listed| {
      filing := OneStep(s);
    } else if work.listed[k].fingerprint != ENVIRONMENT {
      var next := OneStep(s);
      filing := EnvironmentDoes(next, n);
    } else {
      ListedIsOwn(s, k);
      var next := TwoSteps(s);
      filing := EnvironmentDoes(next, n);
    }
  }

  /** A closed issue that the run will come to reopen. */
  predicate ReopensLater(work: Work, i: nat, issue: Issue) {
    && issue.mine && !issue.open && issue.fingerprint.Some?
    && IsOneOf(FindingsOf(work.plan), i, issue.fingerprint.value)
      && !ListsFingerprint(work.listed, issue.fingerprint.value)
  }

  lemma {:induction false} OneLater(findings: seq<Finding>, i: nat, fingerprint: Fingerprint)
    requires i < |findings|
    ensures IsOneOf(findings, i, fingerprint)
      <==> findings[i].fingerprint == fingerprint || IsOneOf(findings, i + 1, fingerprint)
  {
  }

  lemma {:induction false} FilingDoes(s: Sys, n: nat) returns (closing: Sys)
    requires Inv(s) && s.pc.Filing? && n < |s.issues|
    ensures Inv(closing) && closing.pc.Closing? && closing.pc.k == 0 && !closing.pc.closed
      && Finish(closing) == Finish(s)
    ensures closing.pc.work.listed == s.pc.work.listed && closing.pc.work.plan == s.pc.work.plan
    ensures n < |closing.issues|
    ensures closing.issues[n] == if ReopensLater(s.pc.work, s.pc.i, s.issues[n]) then s.issues[n].(open := true)
      else s.issues[n]
    decreases Left(s.pc)
  {
    hide Finish, IsOneOf;
    var work, i, issue := s.pc.work, s.pc.i, s.issues[n];
    var findings := FindingsOf(work.plan);
    if i >= |findings| {
      closing := OneStep(s);
      NoneLater(findings, i, issue);
    } else {
      if issue.fingerprint.Some? {
        OneLater(findings, i, issue.fingerprint.value);
      }
      var next := HandlesFinding(s, n);
      closing := FilingDoes(next, n);
    }
  }

  lemma {:induction false} NoneLater(findings: seq<Finding>, i: nat, issue: Issue)
    requires i >= |findings|
    ensures issue.fingerprint.Some? ==> !IsOneOf(findings, i, issue.fingerprint.value)
  {
  }

  lemma {:induction false} OneStep(s: Sys) returns (next: Sys)
    requires Inv(s) && !s.pc.Idle?
    ensures next == StepRun(s) && Inv(next) && Finish(s) == Finish(next)
  {
    StepKeeps(s);
    next := StepRun(s);
  }

  /** One finding dealt with: of the issues there were, at most its own is reopened. */
  lemma {:induction false} HandlesFinding(s: Sys, n: nat) returns (next: Sys)
    requires Inv(s) && s.pc.Filing? && s.pc.i < |FindingsOf(s.pc.work.plan)| && n < |s.issues|
    ensures Inv(next) && Finish(next) == Finish(s) && next.pc.Filing? && next.pc.i == s.pc.i + 1
    ensures next.pc.work.listed == s.pc.work.listed && next.pc.work.plan == s.pc.work.plan
    ensures n < |next.issues|
    ensures next.issues[n] ==
      if Standing(s.issues[n], FindingsOf(s.pc.work.plan)[s.pc.i].fingerprint) && !s.issues[n].open
         && !ListsFingerprint(s.pc.work.listed, FindingsOf(s.pc.work.plan)[s.pc.i].fingerprint)
      then s.issues[n].(open := true) else s.issues[n]
  {
    hide Finish;
    var work, i := s.pc.work, s.pc.i;
    var fingerprint := FindingsOf(work.plan)[i].fingerprint;
    if ListsFingerprint(work.listed, fingerprint)
      || (ClosedByHand(s.issues, fingerprint).None? && work.filed >= MAX_NEW_ISSUES)
    {
      next := OneStep(s);
    } else {
      next := TwoSteps(s);
    }
  }

  lemma {:induction false} ListedOnce(issues: seq<Issue>, n: nat)
    requires n < |issues|
    ensures Lists(ListOpen(issues), n) <==> issues[n].mine && issues[n].fingerprint.Some? && issues[n].open
  {
  }

  /** What an undisturbed run does to every issue it found. */
  lemma {:induction false} RunDoesToEach(s: Sys, plan: Plan, n: nat)
    requires Inv(s) && s.pc.Idle? && DistinctFindings(FindingsOf(plan)) && n < |s.issues|
    ensures Inv(Happen(s, Start(plan)))
    ensures n < |Finish(Happen(s, Start(plan))).issues|
    ensures Finish(Happen(s, Start(plan))).issues[n] == AfterRun(s.issues[n], plan)
  {
    hide Finish;
    StartKeeps(s, plan);
    var started := Happen(s, Start(plan));
    var work, filing := started.pc.work, started;
    if started.pc.ClosingEnvironment? {
      filing := EnvironmentDoes(started, n);
    }
    var closing := FilingDoes(filing, n);
    ClosingDoes(closing, n);
    ListedOnce(s.issues, n);
    OwnListing(s.issues, work, n);
  }

  /** What a listing says of one issue. */
  lemma {:induction false} OwnListing(issues: seq<Issue>, work: Work, n: nat)
    requires OneEach(issues) && work.listed == ListOpen(issues) && n < |issues|
    ensures var issue := issues[n]; var listed := issue.mine && issue.fingerprint.Some? && issue.open;
      && (EnvironmentLater(work, 0, n) <==> listed && issue.fingerprint.value == ENVIRONMENT)
      && (ClosesLater(work, 0, n) <==>
            listed && issue.criterion.Some? && issue.criterion.value in RecoveredOf(work.plan))
      && (issue.mine && issue.fingerprint.Some? && !issue.open ==>
        !ListsFingerprint(work.listed, issue.fingerprint.value))
  {
    ListedOnce(issues, n);
    if Lists(work.listed, n) {
      var p :| 0 <= p < |work.listed| && work.listed[p].number == n;
      assert 0 <= p && issues[work.listed[p].number].criterion == work.listed[p].criterion;
    }
  }
}
