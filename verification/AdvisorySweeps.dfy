/**
 The sweeps that carry out advisory replies. The pull request's comments, the
 issues and the sweep under way form one state machine; an event is a step of the
 sweep, its death, or somebody's comment or issue, and a history is any schedule of
 events, so a theorem over all schedules holds however sweeps are cut short.
 */
module AdvisorySweeps {
  import opened Prelude

  type Id = string

  datatype Finding = Finding(id: Id, screen: string, category: string, saw: string)

  datatype Promotion = Promotion(id: Id, issue: nat)

  datatype Command = Dismiss | Promote

  /** What a comment opens with, which is what it is. */
  datatype Body =
    | Reply(command: Command, ids: seq<Id>)
    | Record(comment: nat, dismissed: seq<Finding>, promoted: seq<Promotion>)
    | Evidence(findings: seq<Finding>)
    | Other

  /**
   A comment by its id, which is its place; `trusted` is what GitHub says of its author,
   and only a trusted author's reply counts.
   */
  datatype Comment = Comment(own: bool, trusted: bool, body: Body)

  /** An issue by its number, which is its place, with the finding its marker names. */
  datatype Issue = Issue(own: bool, marker: Option<Id>)

  /**
   What a sweep has read and keeps up to date: the comments it listed, the findings
   they carry, what is answered, dismissed and promoted.
   */
  datatype Sweep = Sweep(
    listed: nat,
    posted: map<Id, Finding>,
    answeredComments: set<nat>,
    dismissed: map<Id, Finding>,
    promoted: map<Id, nat>,
    answered: nat)

  datatype Pc =
    | Idle
    | AtComment(w: Sweep, k: nat)
    | AtId(w: Sweep, k: nat, j: nat, dismissed: seq<Finding>, promoted: seq<Promotion>)

  datatype Outcome = Outcome(dismissed: map<Id, Finding>, promoted: map<Id, nat>, answered: nat)

  datatype Sys = Sys(comments: seq<Comment>, issues: seq<Issue>, pc: Pc, last: Option<Outcome>)

  datatype Event = Start | Step | Die | Post(comment: Comment) | File(issue: Issue)

  // ------------------------------------------------------- what the comments say

  predicate IsRecord(c: Comment) {
    c.own && c.body.Record?
  }

  function AddDismissed(m: map<Id, Finding>, list: seq<Finding>): map<Id, Finding> {
    if list == [] then m else AddDismissed(m, list[..|list| - 1])[list[|list| - 1].id := list[|list| - 1]]
  }

  function AddPromoted(m: map<Id, nat>, list: seq<Promotion>): map<Id, nat> {
    if list == [] then m else AddPromoted(m, list[..|list| - 1])[list[|list| - 1].id := list[|list| - 1].issue]
  }

  function Answered(comments: seq<Comment>): set<nat> {
    if comments == [] then {}
    else
      var before, last := Answered(comments[..|comments| - 1]), comments[|comments| - 1];
      if IsRecord(last) then before + {last.body.comment} else before
  }

  function DismissedIn(comments: seq<Comment>): map<Id, Finding> {
    if comments == [] then map[]
    else
      var before, last := DismissedIn(comments[..|comments| - 1]), comments[|comments| - 1];
      if IsRecord(last) then AddDismissed(before, last.body.dismissed) else before
  }

  function PromotedIn(comments: seq<Comment>): map<Id, nat> {
    if comments == [] then map[]
    else
      var before, last := PromotedIn(comments[..|comments| - 1]), comments[|comments| - 1];
      if IsRecord(last) then AddPromoted(before, last.body.promoted) else before
  }

  /** The findings of the last evidence comment of qare's own. */
  function PostedIn(comments: seq<Comment>): map<Id, Finding> {
    if comments == [] then map[]
    else
      var last := comments[|comments| - 1];
      if last.own && last.body.Evidence? then AddDismissed(map[], last.body.findings)
      else PostedIn(comments[..|comments| - 1])
  }

  /** The first own issue whose marker names a finding. */
  function SearchOwn(issues: seq<Issue>, id: Id): (r: Option<nat>)
    ensures r.Some? ==> r.value < |issues| && issues[r.value].own && issues[r.value].marker == Some(id)
    ensures forall n :: 0 <= n < (if r.Some? then r.value else |issues|) ==> !Names(issues[n], id)
  {
    if issues == [] then None
    else
      var before := SearchOwn(issues[..|issues| - 1], id);
      if before.Some? then before
      else if Names(issues[|issues| - 1], id) then Some(|issues| - 1)
      else None
  }

  predicate Names(issue: Issue, id: Id) {
    issue.own && issue.marker == Some(id)
  }

  predicate Asks(c: Comment) {
    c.trusted && c.body.Reply?
  }

  // --------------------------------------------------------------------- the steps

  function StartSweep(comments: seq<Comment>): Sweep {
    Sweep(|comments|, PostedIn(comments), Answered(comments), DismissedIn(comments), PromotedIn(comments), 0)
  }

  function StepComment(s: Sys, w: Sweep, k: nat): Sys {
    if k >= w.listed || k >= |s.comments|
      then s.(pc := Idle, last := Some(Outcome(w.dismissed, w.promoted, w.answered)))
    else if k in w.answeredComments || !Asks(s.comments[k]) then s.(pc := AtComment(w, k + 1))
    else s.(pc := AtId(w, k, 0, [], []))
  }

  function StepDismiss(w: Sweep, k: nat, j: nat, id: Id, dismissed: seq<Finding>, promoted: seq<Promotion>): Pc {
    if id in w.dismissed || id !in w.posted then AtId(w, k, j + 1, dismissed, promoted)
    else
      var entry := w.posted[id].(id := id);
      AtId(w.(dismissed := w.dismissed[id := entry]), k, j + 1, dismissed + [entry], promoted)
  }

  function StepPromote(s: Sys, w: Sweep, k: nat, j: nat, id: Id, dismissed: seq<Finding>, promoted: seq<Promotion>): Sys
  {
    if id in w.promoted then s.(pc := AtId(w, k, j + 1, dismissed, promoted))
    else
      match SearchOwn(s.issues, id)
      case Some(n) =>
        s.(pc := AtId(w.(promoted := w.promoted[id := n]), k, j + 1, dismissed, promoted + [Promotion(id, n)]))
      case None =>
        if id !in w.posted then s.(pc := AtId(w, k, j + 1, dismissed, promoted))
        else
          var n := |s.issues|;
          s.(issues := s.issues + [Issue(true, Some(id))],
             pc := AtId(w.(promoted := w.promoted[id := n]), k, j + 1, dismissed, promoted + [Promotion(id, n)]))
  }

  function StepId(s: Sys, w: Sweep, k: nat, j: nat, dismissed: seq<Finding>, promoted: seq<Promotion>): Sys {
    if k >= |s.comments| || !s.comments[k].body.Reply? then s.(pc := AtComment(w, k + 1))
    else
      var reply := s.comments[k].body;
      if j >= |reply.ids| then
        s.(comments := s.comments + [Comment(true, false, Record(k, dismissed, promoted))],
           pc := AtComment(w.(answered := w.answered + 1), k + 1))
      else if reply.command.Dismiss? then s.(pc := StepDismiss(w, k, j, reply.ids[j], dismissed, promoted))
      else StepPromote(s, w, k, j, reply.ids[j], dismissed, promoted)
  }

  function StepSweep(s: Sys): Sys {
    match s.pc
    case Idle => s
    case AtComment(w, k) => StepComment(s, w, k)
    case AtId(w, k, j, dismissed, promoted) => StepId(s, w, k, j, dismissed, promoted)
  }

  /** What an event makes of the state. Only a sweep writes records and qare's own issues. */
  function Happen(s: Sys, e: Event): Sys {
    match e
    case Start => if s.pc.Idle? then s.(pc := AtComment(StartSweep(s.comments), 0)) else s
    case Step => StepSweep(s)
    case Die => s.(pc := Idle)
    case Post(comment) => if IsRecord(comment) then s else s.(comments := s.comments + [comment])
    case File(issue) => if issue.own then s else s.(issues := s.issues + [issue])
  }

  // ------------------------------------------------------------------ the invariant

  /** At most one own issue names each finding. */
  ghost predicate OneIssueEach(issues: seq<Issue>) {
    forall m, n :: 0 <= m < n < |issues| && issues[m].own && issues[n].own && issues[m].marker.Some? ==>
      issues[m].marker != issues[n].marker
  }

  /** Each record answers a comment that stands before it, and no two answer the same. */
  ghost predicate OneRecordEach(comments: seq<Comment>) {
    && (forall c :: 0 <= c < |comments| && IsRecord(comments[c]) ==> comments[c].body.comment < c)
    && forall c, d :: 0 <= c < d < |comments| && IsRecord(comments[c]) && IsRecord(comments[d]) ==>
      comments[c].body.comment != comments[d].body.comment
  }

  /** Every promotion is to an own issue that names its finding. */
  ghost predicate PromotedTrue(promoted: map<Id, nat>, issues: seq<Issue>) {
    forall id :: id in promoted ==>
      promoted[id] < |issues| && issues[promoted[id]].own && issues[promoted[id]].marker == Some(id)
  }

  ghost predicate Sweeping(s: Sys, w: Sweep, k: nat) {
    && w.listed <= |s.comments|
    && w.answeredComments == Answered(s.comments[..w.listed])
    && (forall c :: w.listed <= c < |s.comments| && IsRecord(s.comments[c]) ==> s.comments[c].body.comment < k)
    && (forall c :: 0 <= c < k && c < w.listed && Asks(s.comments[c]) ==> c in Answered(s.comments))
    && PromotedTrue(w.promoted, s.issues)
  }

  ghost predicate PcOk(s: Sys) {
    match s.pc
    case Idle => true
    case AtComment(w, k) =>
      Sweeping(s, w, k) && w.dismissed == DismissedIn(s.comments) && w.promoted == PromotedIn(s.comments)
    case AtId(w, k, j, dismissed, promoted) =>
      && Sweeping(s, w, k) && k < w.listed && k !in w.answeredComments && Asks(s.comments[k])
      && w.dismissed == AddDismissed(DismissedIn(s.comments), dismissed)
      && w.promoted == AddPromoted(PromotedIn(s.comments), promoted)
  }

  ghost predicate Inv(s: Sys) {
    && OneIssueEach(s.issues)
    && OneRecordEach(s.comments)
    && PromotedTrue(PromotedIn(s.comments), s.issues)
    && PcOk(s)
  }

  // -------------------------------------------------------------- what a step keeps

  lemma {:induction false} OneMoreComment(comments: seq<Comment>, c: Comment)
    ensures var all := comments + [c];
      && Answered(all) == Answered(comments) + (if IsRecord(c) then {c.body.comment} else {})
      && DismissedIn(all) == (if IsRecord(c) then AddDismissed(DismissedIn(comments), c.body.dismissed)
        else DismissedIn(comments))
      && PromotedIn(all) == (if IsRecord(c) then AddPromoted(PromotedIn(comments), c.body.promoted)
        else PromotedIn(comments))
  {
    assert (comments + [c])[..|comments|] == comments;
  }

  lemma {:induction false} AnsweredIsRecorded(comments: seq<Comment>, k: nat)
    ensures k in Answered(comments)
      <==> exists c :: 0 <= c < |comments| && IsRecord(comments[c]) && comments[c].body.comment == k
  {
    if comments != [] {
      var n := |comments| - 1;
      AnsweredIsRecorded(comments[..n], k);
      assert forall c :: 0 <= c < n ==> comments[..n][c] == comments[c];
      if k in Answered(comments[..n]) {
        var c :| 0 <= c < n && IsRecord(comments[..n][c]) && comments[..n][c].body.comment == k;
        assert IsRecord(comments[c]);
      }
    }
  }

  lemma {:induction false} PostKeepsRecords(comments: seq<Comment>, comment: Comment)
    requires OneRecordEach(comments) && !IsRecord(comment)
    ensures OneRecordEach(comments + [comment])
  {
  }

  lemma {:induction false} PostKeepsSweeping(s: Sys, comment: Comment, w: Sweep, k: nat)
    requires Sweeping(s, w, k) && !IsRecord(comment)
    requires Answered(s.comments + [comment]) == Answered(s.comments)
    ensures Sweeping(s.(comments := s.comments + [comment]), w, k)
  {
    hide Answered, PromotedTrue;
    assert (s.comments + [comment])[..w.listed] == s.comments[..w.listed];
  }

  /** A comment that is no record changes nothing a sweep rests on. */
  lemma {:induction false} PostKeeps(s: Sys, comment: Comment)
    requires Inv(s) && !IsRecord(comment)
    ensures Inv(s.(comments := s.comments + [comment]))
  {
    hide Answered, DismissedIn, PromotedIn, OneRecordEach, PromotedTrue, OneIssueEach, AddDismissed, AddPromoted;
    assert s.pc.AtId? ==> s.pc.k < |s.comments|;
    hide Sweeping;
    OneMoreComment(s.comments, comment);
    PostKeepsRecords(s.comments, comment);
    if !s.pc.Idle? {
      PostKeepsSweeping(s, comment, s.pc.w, s.pc.k);
    }
  }

  lemma {:induction false} FileKeeps(s: Sys, issue: Issue)
    requires Inv(s) && !issue.own
    ensures Inv(s.(issues := s.issues + [issue]))
  {
  }

  lemma {:induction false} StartKeeps(s: Sys)
    requires Inv(s) && s.pc.Idle?
    ensures Inv(Happen(s, Start))
  {
    assert s.comments[..|s.comments|] == s.comments;
  }

  lemma {:induction false} AnsweredStays(comments: seq<Comment>, n: nat, k: nat)
    requires n <= |comments| && k in Answered(comments[..n])
    ensures k in Answered(comments)
  {
    AnsweredIsRecorded(comments[..n], k);
    AnsweredIsRecorded(comments, k);
    var c :| 0 <= c < n && IsRecord(comments[..n][c]) && comments[..n][c].body.comment == k;
    assert IsRecord(comments[c]);
  }

  lemma {:induction false} CommentKeeps(s: Sys)
    requires Inv(s) && s.pc.AtComment?
    ensures Inv(StepSweep(s))
  {
    hide Answered, DismissedIn, PromotedIn, OneIssueEach, OneRecordEach, PromotedTrue;
    var w, k := s.pc.w, s.pc.k;
    if k < w.listed && k in w.answeredComments {
      AnsweredStays(s.comments, w.listed, k);
    }
    var nothing: (seq<Finding>, seq<Promotion>) := ([], []);
    assert AddDismissed(w.dismissed, nothing.0) == w.dismissed && AddPromoted(w.promoted, nothing.1) == w.promoted;
  }

  lemma {:induction false} DismissKeeps(s: Sys)
    requires Inv(s) && s.pc.AtId? && s.pc.j < |s.comments[s.pc.k].body.ids| && s.comments[s.pc.k].body.command.Dismiss?
    ensures Inv(StepSweep(s))
  {
    var w, dismissed := s.pc.w, s.pc.dismissed;
    var id := s.comments[s.pc.k].body.ids[s.pc.j];
    if id !in w.dismissed && id in w.posted {
      assert (dismissed + [w.posted[id].(id := id)])[..|dismissed|] == dismissed;
    }
  }

  lemma {:induction false} PromotionAdds(m: map<Id, nat>, promoted: seq<Promotion>, id: Id, n: nat)
    ensures AddPromoted(m, promoted + [Promotion(id, n)]) == AddPromoted(m, promoted)[id := n]
  {
    assert (promoted + [Promotion(id, n)])[..|promoted|] == promoted;
  }

  lemma {:induction false} NewIssueKeeps(s: Sys, id: Id)
    requires OneIssueEach(s.issues) && SearchOwn(s.issues, id).None?
    ensures OneIssueEach(s.issues + [Issue(true, Some(id))])
    ensures forall m :: PromotedTrue(m, s.issues) ==> PromotedTrue(m, s.issues + [Issue(true, Some(id))])
  {
    assert forall n :: 0 <= n < |s.issues| ==> !Names(s.issues[n], id);
  }

  lemma {:induction false} PromoteKeeps(s: Sys)
    requires Inv(s) && s.pc.AtId? && s.pc.j < |s.comments[s.pc.k].body.ids| && s.comments[s.pc.k].body.command.Promote?
    ensures Inv(StepSweep(s))
  {
    hide Answered, DismissedIn, PromotedIn, AddPromoted, AddDismissed, OneIssueEach, OneRecordEach, SearchOwn;
    var w, promoted := s.pc.w, s.pc.promoted;
    var id := s.comments[s.pc.k].body.ids[s.pc.j];
    if id !in w.promoted {
      var found := SearchOwn(s.issues, id);
      if found.Some? {
        PromotionAdds(PromotedIn(s.comments), promoted, id, found.value);
      } else if id in w.posted {
        NewIssueKeeps(s, id);
        PromotionAdds(PromotedIn(s.comments), promoted, id, |s.issues|);
      }
    }
  }

  /** Writing the record answers the reply, and what the record says is what the sweep holds. */
  lemma {:induction false} RecordKeeps(s: Sys)
    requires Inv(s) && s.pc.AtId? && s.pc.j >= |s.comments[s.pc.k].body.ids|
    ensures Inv(StepSweep(s))
  {
    hide Answered, DismissedIn, PromotedIn, AddDismissed, AddPromoted, OneIssueEach;
    var w, k := s.pc.w, s.pc.k;
    var record := Comment(true, false, Record(k, s.pc.dismissed, s.pc.promoted));
    OneMoreComment(s.comments, record);
    assert (s.comments + [record])[..w.listed] == s.comments[..w.listed];
    NotYetRecorded(s);
  }

  lemma {:induction false} NotYetRecorded(s: Sys)
    requires Inv(s) && s.pc.AtId?
    ensures forall c :: 0 <= c < |s.comments| && IsRecord(s.comments[c]) ==> s.comments[c].body.comment != s.pc.k
  {
    var w := s.pc.w;
    AnsweredIsRecorded(s.comments[..w.listed], s.pc.k);
    assert forall c :: 0 <= c < w.listed ==> s.comments[..w.listed][c] == s.comments[c];
  }

  lemma {:induction false} StepKeeps(s: Sys)
    requires Inv(s)
    ensures Inv(StepSweep(s))
  {
    match s.pc
    case Idle =>
    case AtComment(_, _) => CommentKeeps(s);
    case AtId(_, k, j, _, _) =>
      if j >= |s.comments[k].body.ids| {
        RecordKeeps(s);
      } else if s.comments[k].body.command.Dismiss? {
        DismissKeeps(s);
      } else {
        PromoteKeeps(s);
      }
  }

  lemma {:induction false} EventKeeps(s: Sys, e: Event)
    requires Inv(s)
    ensures Inv(Happen(s, e))
  {
    match e
    case Start => if s.pc.Idle? { StartKeeps(s); }
    case Step => StepKeeps(s);
    case Die =>
    case Post(comment) => if !IsRecord(comment) { PostKeeps(s, comment); }
    case File(issue) => if !issue.own { FileKeeps(s, issue); }
  }

  // ----------------------------------------------------------------- over histories

  type Schedule = seq<Event>

  function Exec(s: Sys, schedule: Schedule): Sys
    decreases |schedule|
  {
    if schedule == [] then s else Exec(Happen(s, schedule[0]), schedule[1..])
  }

  lemma {:induction false} ExecKeeps(s: Sys, schedule: Schedule)
    requires Inv(s)
    ensures Inv(Exec(s, schedule))
    decreases |schedule|
  {
    if schedule != [] {
      EventKeeps(s, schedule[0]);
      ExecKeeps(Happen(s, schedule[0]), schedule[1..]);
    }
  }

  /**
   However sweeps are cut short and whatever is posted between, at most one own
   issue is filed for a finding, at most one record is written for a reply, and
   every recorded promotion is to an issue that names its finding.
   */
  lemma {:induction false} NothingIsDoneTwice(s: Sys, schedule: Schedule)
    requires Inv(s)
    ensures var now := Exec(s, schedule);
      && OneIssueEach(now.issues) && OneRecordEach(now.comments) && PromotedTrue(PromotedIn(now.comments), now.issues)
  {
    ExecKeeps(s, schedule);
  }

  // ------------------------------------------------------------- a sweep to its end

  function Left(s: Sys): nat {
    match s.pc
    case Idle => 0
    case AtComment(w, k) => 1 + Max(0, w.listed - k)
    case AtId(w, k, _, _, _) => 1 + Max(0, w.listed - k)
  }

  function IdsLeft(s: Sys): nat {
    if s.pc.AtId? && s.pc.k < |s.comments| && s.comments[s.pc.k].body.Reply?
      then Max(0, |s.comments[s.pc.k].body.ids| - s.pc.j)
    else if s.pc.AtComment? && s.pc.k < |s.comments| && s.comments[s.pc.k].body.Reply?
      then |s.comments[s.pc.k].body.ids| + 1
    else 0
  }

  lemma {:induction false} StepShrinks(s: Sys)
    requires Inv(s) && !s.pc.Idle?
    ensures Left(StepSweep(s)) < Left(s) || (Left(StepSweep(s)) == Left(s) && IdsLeft(StepSweep(s)) < IdsLeft(s))
  {
  }

  /** A sweep that nothing disturbs, to its end. */
  ghost function Finish(s: Sys): (end: Sys)
    requires Inv(s)
    ensures Inv(end) && end.pc.Idle?
    decreases Left(s), IdsLeft(s)
  {
    hide StepSweep, Inv, Left, IdsLeft;
    if s.pc.Idle? then s
    else
      StepKeeps(s);
      StepShrinks(s);
      Finish(StepSweep(s))
  }

  /** Every reply that counts has its record. */
  ghost predicate AllAnswered(comments: seq<Comment>) {
    forall k :: 0 <= k < |comments| && Asks(comments[k]) ==> k in Answered(comments)
  }

  /** A sweep that comes to the end of its list has answered every reply on it. */
  lemma {:induction false} SweptIsAnswered(s: Sys)
    requires Inv(s) && s.pc.AtComment? && s.pc.k >= s.pc.w.listed
    requires forall c :: s.pc.w.listed <= c < |s.comments| ==> !Asks(s.comments[c])
    ensures AllAnswered(s.comments)
  {
  }

  /** A sweep over comments that are all answered goes through them and does nothing. */
  lemma {:induction false} NothingToDo(s: Sys)
    requires Inv(s) && s.pc.AtComment? && s.pc.w.listed == |s.comments| && AllAnswered(s.comments)
    ensures Finish(s) == s.(pc := Idle, last := Some(Outcome(s.pc.w.dismissed, s.pc.w.promoted, s.pc.w.answered)))
    decreases Left(s)
  {
    var w, k := s.pc.w, s.pc.k;
    assert s.comments[..w.listed] == s.comments;
    StepKeeps(s);
    if k < w.listed {
      NothingToDo(StepSweep(s));
    } else {
      assert Finish(s) == Finish(StepSweep(s)) == StepSweep(s);
    }
  }

  /**
   A completed sweep is final: when no reply came in while it ran, the next sweep
   answers nothing, writes nothing and reports the same findings dismissed and
   promoted.
   */
  lemma {:induction false} CompletedSweepIsFinal(s: Sys)
    requires Inv(s) && s.pc.AtComment? && s.pc.k >= s.pc.w.listed
    requires forall c :: s.pc.w.listed <= c < |s.comments| ==> !Asks(s.comments[c])
    ensures Inv(Happen(StepSweep(s), Start))
    ensures var done := StepSweep(s); var again := Finish(Happen(done, Start));
      && done.pc.Idle? && done.last.Some?
      && again.comments == done.comments && again.issues == done.issues
      && again.last == Some(Outcome(done.last.value.dismissed, done.last.value.promoted, 0))
  {
    var done := StepSweep(s);
    StepKeeps(s);
    SweptIsAnswered(s);
    StartKeeps(done);
    NothingToDo(Happen(done, Start));
  }

  // ------------------------------------------------------------- what a sweep does

  function IdsFrom(ids: seq<Id>, j: nat): set<Id> {
    set i | j <= i < |ids| :: ids[i]
  }

  /** The ids that the unanswered replies from the `k`-th comment on ask a command for. */
  function Asked(comments: seq<Comment>, k: nat, answered: set<nat>, command: Command): set<Id> {
    set c, i | k <= c < |comments| && Asks(comments[c]) && c !in answered && comments[c].body.command == command
      && 0 <= i < |comments[c].body.ids| :: comments[c].body.ids[i]
  }

  /** What can be promoted: a finding that is posted, or one an own issue names already. */
  predicate Fileable(posted: map<Id, Finding>, issues: seq<Issue>, id: Id) {
    id in posted || exists n :: 0 <= n < |issues| && Names(issues[n], id)
  }

  lemma {:induction false} FewerIds(ids: seq<Id>, j: nat)
    requires j < |ids|
    ensures IdsFrom(ids, j) == {ids[j]} + IdsFrom(ids, j + 1)
  {
  }

  lemma {:induction false} FileableStays(posted: map<Id, Finding>, issues: seq<Issue>, id: Id, other: Id)
    requires other != id
    ensures Fileable(posted, issues + [Issue(true, Some(id))], other) <==> Fileable(posted, issues, other)
  {
    var all := issues + [Issue(true, Some(id))];
    if n :| 0 <= n < |issues| && Names(issues[n], other) {
      assert Names(all[n], other);
    }
    if n :| 0 <= n < |all| && Names(all[n], other) {
      assert n < |issues| && Names(issues[n], other);
    }
  }

  lemma {:induction false} OneStep(s: Sys) returns (next: Sys)
    requires Inv(s) && !s.pc.Idle?
    ensures next == StepSweep(s) && Inv(next) && Finish(next) == Finish(s)
  {
    StepKeeps(s);
    next := StepSweep(s);
  }

  /** What a sweep held it holds still, and what it dismissed since is a posted finding as it was posted. */
  ghost predicate HoldsMore(w: Sweep, now: Sweep) {
    && now.posted == w.posted
    && (forall id :: id in w.dismissed ==> id in now.dismissed && now.dismissed[id] == w.dismissed[id])
    && (forall id :: id in w.promoted ==> id in now.promoted && now.promoted[id] == w.promoted[id])
    && (forall id :: id in now.dismissed && id !in w.dismissed ==>
      id in w.posted && now.dismissed[id] == w.posted[id].(id := id))
  }

  /** Every issue filed since names a posted finding that was asked for and that no own issue named. */
  ghost predicate FiledOnly(issues: seq<Issue>, now: seq<Issue>, asked: set<Id>, posted: map<Id, Finding>) {
    && issues <= now
    && forall n :: |issues| <= n < |now| ==>
      && now[n].own && now[n].marker.Some? && now[n].marker.value in asked && now[n].marker.value in posted
      && forall m :: 0 <= m < |issues| ==> !Names(issues[m], now[n].marker.value)
  }

  /** Every comment written since is a record, and as many replies were answered. */
  ghost predicate WroteOnly(s: Sys, now: Sys)
    requires !s.pc.Idle? && !now.pc.Idle?
  {
    && s.comments <= now.comments
    && (forall c :: |s.comments| <= c < |now.comments| ==> IsRecord(now.comments[c]))
    && now.pc.w.answered - s.pc.w.answered == |now.comments| - |s.comments|
  }

  /** How a sweep gets from one state to another, the promotions of `asked` being asked for on the way. */
  ghost predicate Progress(s: Sys, now: Sys, asked: set<Id>) {
    && !s.pc.Idle? && !now.pc.Idle?
    && HoldsMore(s.pc.w, now.pc.w) && FiledOnly(s.issues, now.issues, asked, s.pc.w.posted) && WroteOnly(s, now)
  }

  lemma {:induction false} FiledOnlyOn(issues: seq<Issue>, then': seq<Issue>, now: seq<Issue>, first: set<Id>,
      second: set<Id>, all: set<Id>, posted: map<Id, Finding>)
    requires FiledOnly(issues, then', first, posted) && FiledOnly(then', now, second, posted)
    requires first <= all && second <= all
    ensures FiledOnly(issues, now, all, posted)
  {
    forall n | |issues| <= n < |now|
      ensures now[n].own && now[n].marker.Some? && now[n].marker.value in all && now[n].marker.value in posted
      ensures forall m :: 0 <= m < |issues| ==> !Names(issues[m], now[n].marker.value)
    {
      if n < |then'| {
        assert now[n] == then'[n];
      } else {
        assert forall m :: 0 <= m < |issues| ==> then'[m] == issues[m];
      }
    }
  }

  lemma {:induction false} ProgressOn(s: Sys, then': Sys, now: Sys, first: set<Id>, second: set<Id>, all: set<Id>)
    requires Progress(s, then', first) && Progress(then', now, second) && first <= all && second <= all
    ensures Progress(s, now, all)
  {
    hide FiledOnly;
    FiledOnlyOn(s.issues, then'.issues, now.issues, first, second, all, s.pc.w.posted);
  }

  /** The ids a reply asks to promote, from its `j`-th on. */
  function PromotesFrom(c: Comment, j: nat): set<Id>
    requires c.body.Reply?
  {
    if c.body.command.Promote? then IdsFrom(c.body.ids, j) else {}
  }

  lemma {:induction false} OneIdProgress(s: Sys)
    requires s.pc.AtId? && s.pc.k < |s.comments| && s.comments[s.pc.k].body.Reply?
      && s.pc.j < |s.comments[s.pc.k].body.ids|
    ensures Progress(s, StepSweep(s), PromotesFrom(s.comments[s.pc.k], s.pc.j))
  {
  }

  lemma {:induction false} RecordProgress(s: Sys)
    requires s.pc.AtId? && s.pc.k < |s.comments| && s.comments[s.pc.k].body.Reply?
      && s.pc.j >= |s.comments[s.pc.k].body.ids|
    ensures Progress(s, StepSweep(s), PromotesFrom(s.comments[s.pc.k], s.pc.j))
  {
  }

  /** What a reply makes of a sweep, from its `j`-th id on: what it dismisses and what it promotes. */
  ghost predicate Carried(s: Sys, next: Sys)
    requires s.pc.AtId? && s.pc.k < |s.comments| && s.comments[s.pc.k].body.Reply?
  {
    var w, ids, command := s.pc.w, IdsFrom(s.comments[s.pc.k].body.ids, s.pc.j), s.comments[s.pc.k].body.command;
    && next.pc.AtComment? && next.pc.k == s.pc.k + 1
    && next.pc.w.listed == w.listed && next.pc.w.posted == w.posted && next.pc.w.answeredComments == w.answeredComments
    && s.comments <= next.comments && (forall c :: |s.comments| <= c < |next.comments| ==> !Asks(next.comments[c]))
    && (forall id ::
      id in next.pc.w.dismissed <==> id in w.dismissed || (command.Dismiss? && id in ids && id in w.posted))
    && (forall id ::
      id in next.pc.w.promoted <==>
        id in w.promoted || (command.Promote? && id in ids && Fileable(w.posted, s.issues, id)))
    && (forall id :: id !in next.pc.w.promoted ==>
      (Fileable(w.posted, next.issues, id) <==> Fileable(w.posted, s.issues, id)))
    && Progress(s, next, PromotesFrom(s.comments[s.pc.k], s.pc.j))
  }

  lemma {:induction false} NoIdsLeft(s: Sys, next: Sys)
    requires s.pc.AtId? && s.pc.k < |s.comments| && s.comments[s.pc.k].body.Reply?
      && s.pc.j >= |s.comments[s.pc.k].body.ids|
    requires next == StepSweep(s)
    ensures Carried(s, next)
  {
    RecordProgress(s);
    hide Fileable, Progress;
  }

  /** One id more on a reply, before what is made of the rest. */
  lemma {:induction false} OneIdMore(s: Sys, stepped: Sys, next: Sys)
    requires s.pc.AtId? && s.pc.k < |s.comments| && s.comments[s.pc.k].body.Reply?
      && s.pc.j < |s.comments[s.pc.k].body.ids|
    requires OneIdDone(s, stepped) && Carried(stepped, next)
    requires Progress(s, stepped, PromotesFrom(s.comments[s.pc.k], s.pc.j))
    ensures Carried(s, next)
  {
    hide Fileable, IdsFrom, Progress;
    var c, j := s.comments[s.pc.k], s.pc.j;
    FewerIds(c.body.ids, j);
    ProgressOn(s, stepped, next, PromotesFrom(c, j), PromotesFrom(c, j + 1), PromotesFrom(c, j));
  }

  /** What one id of a reply comes to: dismissed when it is posted, promoted when it can be, as the reply asks. */
  ghost predicate OneIdDone(s: Sys, next: Sys)
    requires s.pc.AtId? && s.pc.k < |s.comments| && s.comments[s.pc.k].body.Reply?
      && s.pc.j < |s.comments[s.pc.k].body.ids|
  {
    var w, asked, command := s.pc.w, s.comments[s.pc.k].body.ids[s.pc.j], s.comments[s.pc.k].body.command;
    && next.comments == s.comments && next.pc.AtId? && next.pc.k == s.pc.k && next.pc.j == s.pc.j + 1
    && next.pc.w.listed == w.listed && next.pc.w.posted == w.posted && next.pc.w.answeredComments == w.answeredComments
    && (forall id ::
      id in next.pc.w.dismissed <==> id in w.dismissed || (command.Dismiss? && id == asked && id in w.posted))
    && (forall id ::
      id in next.pc.w.promoted <==>
        id in w.promoted || (command.Promote? && id == asked && Fileable(w.posted, s.issues, id)))
    && (forall id :: id !in next.pc.w.promoted ==>
      (Fileable(w.posted, next.issues, id) <==> Fileable(w.posted, s.issues, id)))
  }

  lemma {:induction false} OneIdDoes(s: Sys)
    requires Inv(s) && s.pc.AtId? && s.pc.k < |s.comments| && s.comments[s.pc.k].body.Reply?
      && s.pc.j < |s.comments[s.pc.k].body.ids|
    ensures OneIdDone(s, StepSweep(s))
  {
    hide Fileable, Inv;
    if s.comments[s.pc.k].body.command.Promote? {
      OneIdPromoted(s);
    }
  }

  lemma {:induction false} IdsDo(s: Sys) returns (next: Sys)
    requires Inv(s) && s.pc.AtId?
    ensures Inv(next) && Finish(next) == Finish(s) && Carried(s, next)
    decreases IdsLeft(s)
  {
    hide Finish, Inv, Carried, Progress, PromotesFrom;
    InvAtId(s);
    var stepped := OneStep(s);
    if s.pc.j < |s.comments[s.pc.k].body.ids| {
      OneIdDoes(s);
      OneIdProgress(s);
      next := IdsDo(stepped);
      OneIdMore(s, stepped, next);
    } else {
      next := stepped;
      NoIdsLeft(s, next);
    }
  }

  lemma {:induction false} InvAtId(s: Sys)
    requires Inv(s) && s.pc.AtId?
    ensures s.pc.k < |s.comments| && s.comments[s.pc.k].body.Reply?
  {
  }

  /** One id asked to be promoted is, exactly when it can be; and nothing else becomes fileable by it. */
  lemma {:induction false} OneIdPromoted(s: Sys)
    requires Inv(s) && s.pc.AtId? && s.pc.j < |s.comments[s.pc.k].body.ids| && s.comments[s.pc.k].body.command.Promote?
    ensures StepSweep(s).pc.AtId?
    ensures var next, w, asked := StepSweep(s), s.pc.w, s.comments[s.pc.k].body.ids[s.pc.j];
      && (forall id ::
        id in next.pc.w.promoted <==> id in w.promoted || (id == asked && Fileable(w.posted, s.issues, id)))
      && (forall id :: id !in next.pc.w.promoted ==>
        (Fileable(w.posted, next.issues, id) <==> Fileable(w.posted, s.issues, id)))
  {
    var w, asked := s.pc.w, s.comments[s.pc.k].body.ids[s.pc.j];
    var next := StepSweep(s);
    if next.issues != s.issues {
      forall id | id != asked ensures Fileable(w.posted, next.issues, id) <==> Fileable(w.posted, s.issues, id) {
        FileableStays(w.posted, s.issues, asked, id);
      }
    }
  }

  /** What a sweep has still to do from where it stands, and what it comes to. */
  ghost predicate Sweeps(s: Sys, list: seq<Comment>, end: Sys)
    requires s.pc.AtComment?
  {
    var w, k := s.pc.w, s.pc.k;
    && end.pc.AtComment? && end.pc.k >= end.pc.w.listed == w.listed
    && list <= end.comments && (forall c :: |list| <= c < |end.comments| ==> !Asks(end.comments[c]))
    && (forall id ::
      id in end.pc.w.dismissed <==>
        id in w.dismissed || (id in Asked(list, k, w.answeredComments, Dismiss) && id in w.posted))
    && (forall id :: id in end.pc.w.promoted <==>
          id in w.promoted || (id in Asked(list, k, w.answeredComments, Promote) && Fileable(w.posted, s.issues, id)))
    && Progress(s, end, Asked(list, k, w.answeredComments, Promote))
  }

  ghost predicate ListsAll(s: Sys, list: seq<Comment>) {
    && s.pc.AtComment? && s.pc.w.listed == |list| && list <= s.comments
    && forall c :: |list| <= c < |s.comments| ==> !Asks(s.comments[c])
  }

  lemma {:induction false} AskedFromHere(list: seq<Comment>, k: nat, answered: set<nat>, command: Command, id: Id)
    requires k < |list|
    ensures id in Asked(list, k, answered, command) <==>
      || (Asks(list[k]) && k !in answered && list[k].body.command == command && id in IdsFrom(list[k].body.ids, 0))
      || id in Asked(list, k + 1, answered, command)
  {
    if Asks(list[k]) && k !in answered && list[k].body.command == command && id in IdsFrom(list[k].body.ids, 0) {
      var i :| 0 <= i < |list[k].body.ids| && list[k].body.ids[i] == id;
      assert id in Asked(list, k, answered, command);
    }
    if id in Asked(list, k + 1, answered, command) {
      var c, i :| k + 1 <= c < |list| && Asks(list[c]) && c !in answered && list[c].body.command == command
        && 0 <= i < |list[c].body.ids| && list[c].body.ids[i] == id;
      assert id in Asked(list, k, answered, command);
    }
  }

  lemma {:induction false} NoneAskedPast(list: seq<Comment>, k: nat, answered: set<nat>, command: Command)
    requires k >= |list|
    ensures Asked(list, k, answered, command) == {}
  {
  }

  lemma {:induction false} SkippedComment(s: Sys, next: Sys, list: seq<Comment>, end: Sys)
    requires ListsAll(s, list) && s.pc.k < |list| && (s.pc.k in s.pc.w.answeredComments || !Asks(list[s.pc.k]))
    requires next == s.(pc := AtComment(s.pc.w, s.pc.k + 1)) && Sweeps(next, list, end)
    ensures Sweeps(s, list, end)
  {
    assert Progress(s, end, Asked(list, s.pc.k + 1, s.pc.w.answeredComments, Promote));
    hide Fileable, Asked, Progress;
    forall id, command
      ensures id in Asked(list, s.pc.k, s.pc.w.answeredComments, command)
        <==> id in Asked(list, s.pc.k + 1, s.pc.w.answeredComments, command)
    {
      AskedFromHere(list, s.pc.k, s.pc.w.answeredComments, command, id);
    }
  }

  lemma {:induction false} AnsweredProgress(s: Sys, next: Sys, list: seq<Comment>, end: Sys)
    requires ListsAll(s, list) && s.pc.k < |list| && s.pc.k !in s.pc.w.answeredComments && Asks(list[s.pc.k])
    requires Carried(s.(pc := AtId(s.pc.w, s.pc.k, 0, [], [])), next) && Sweeps(next, list, end)
    ensures Progress(s, end, Asked(list, s.pc.k, s.pc.w.answeredComments, Promote))
  {
    var w, k := s.pc.w, s.pc.k;
    assert s.comments[k] == list[k];
    AskedSplits(list, k, w.answeredComments, Promote);
    hide Fileable, Asked, IdsFrom;
    var all, first, rest := Asked(list, k, w.answeredComments, Promote), PromotesFrom(list[k], 0),
      Asked(list, k + 1, w.answeredComments, Promote);
    assert Progress(s, next, first);
    hide Progress, PromotesFrom;
    ProgressOn(s, next, end, first, rest, all);
  }

  lemma {:induction false} AnsweredDismisses(s: Sys, next: Sys, list: seq<Comment>, end: Sys)
    requires ListsAll(s, list) && s.pc.k < |list| && s.pc.k !in s.pc.w.answeredComments && Asks(list[s.pc.k])
    requires Carried(s.(pc := AtId(s.pc.w, s.pc.k, 0, [], [])), next) && Sweeps(next, list, end)
    ensures forall id :: id in end.pc.w.dismissed <==>
      id in s.pc.w.dismissed || (id in Asked(list, s.pc.k, s.pc.w.answeredComments, Dismiss) && id in s.pc.w.posted)
  {
    assert s.comments[s.pc.k] == list[s.pc.k];
    AskedSplits(list, s.pc.k, s.pc.w.answeredComments, Dismiss);
    hide Fileable, Asked, IdsFrom, Progress, Asks;
  }

  lemma {:induction false} AnsweredPromotes(s: Sys, next: Sys, list: seq<Comment>, end: Sys)
    requires ListsAll(s, list) && s.pc.k < |list| && s.pc.k !in s.pc.w.answeredComments && Asks(list[s.pc.k])
    requires Carried(s.(pc := AtId(s.pc.w, s.pc.k, 0, [], [])), next) && Sweeps(next, list, end)
    ensures forall id :: id in end.pc.w.promoted <==>
      id in s.pc.w.promoted || (id in Asked(list, s.pc.k, s.pc.w.answeredComments, Promote)
        && Fileable(s.pc.w.posted, s.issues, id))
  {
    assert s.comments[s.pc.k] == list[s.pc.k];
    AskedSplits(list, s.pc.k, s.pc.w.answeredComments, Promote);
    hide Fileable, Asked, IdsFrom, Progress, Asks;
  }

  lemma {:induction false} AnsweredComment(s: Sys, next: Sys, list: seq<Comment>, end: Sys)
    requires ListsAll(s, list) && s.pc.k < |list| && s.pc.k !in s.pc.w.answeredComments && Asks(list[s.pc.k])
    requires Carried(s.(pc := AtId(s.pc.w, s.pc.k, 0, [], [])), next) && Sweeps(next, list, end)
    ensures Sweeps(s, list, end)
  {
    AnsweredProgress(s, next, list, end);
    AnsweredDismisses(s, next, list, end);
    AnsweredPromotes(s, next, list, end);
    assert next.pc.w.listed == s.pc.w.listed;
    hide Fileable, Asked, IdsFrom, Progress, Asks, Carried;
  }

  lemma {:induction false} AskedSplits(list: seq<Comment>, k: nat, answered: set<nat>, command: Command)
    requires k < |list| && Asks(list[k]) && k !in answered
    ensures Asked(list, k, answered, command)
      == (if list[k].body.command == command then IdsFrom(list[k].body.ids, 0) else {})
        + Asked(list, k + 1, answered, command)
  {
    hide Asked, IdsFrom;
    forall id
      ensures id in Asked(list, k, answered, command) <==>
        (list[k].body.command == command && id in IdsFrom(list[k].body.ids, 0))
        || id in Asked(list, k + 1, answered, command)
    {
      AskedFromHere(list, k, answered, command, id);
    }
  }

  lemma {:induction false} SweepsOn(s: Sys, list: seq<Comment>) returns (end: Sys)
    requires Inv(s) && ListsAll(s, list)
    ensures Inv(end) && Finish(end) == Finish(s) && Sweeps(s, list, end)
    decreases Max(0, |list| - s.pc.k)
  {
    hide Finish, Inv, Fileable, Carried, Asked;
    if s.pc.k >= |list| {
      end := s;
      NoneAskedPast(list, s.pc.k, s.pc.w.answeredComments, Dismiss);
      NoneAskedPast(list, s.pc.k, s.pc.w.answeredComments, Promote);
    } else {
      var next := OneStep(s);
      if s.pc.k in s.pc.w.answeredComments || !Asks(list[s.pc.k]) {
        end := SweepsOn(next, list);
        SkippedComment(s, next, list, end);
      } else {
        var after := IdsDo(next);
        CarriedListsAll(s, after, list);
        end := SweepsOn(after, list);
        AnsweredComment(s, after, list, end);
      }
    }
  }

  lemma {:induction false} CarriedListsAll(s: Sys, next: Sys, list: seq<Comment>)
    requires ListsAll(s, list) && s.pc.k < |list| && Asks(list[s.pc.k])
    requires Carried(s.(pc := AtId(s.pc.w, s.pc.k, 0, [], [])), next)
    ensures ListsAll(next, list) && next.pc.k == s.pc.k + 1
  {
    hide Fileable, IdsFrom;
  }

  /**
   What an undisturbed sweep does: it answers every reply that counts with one record
   and writes nothing else, dismisses the posted findings that are asked to be, as they
   were posted, and promotes those asked to be that are posted or filed already; it files
   an issue for nothing but a posted finding asked to be promoted that no own issue names,
   and what was dismissed or promoted before stays as it was.
   */
  lemma {:induction false} SweepDoes(s: Sys)
    requires Inv(s) && s.pc.Idle?
    ensures Inv(Happen(s, Start))
    ensures var end, list := Finish(Happen(s, Start)), s.comments;
      var posted, answered := PostedIn(list), Answered(list);
      && AllAnswered(end.comments)
      && end.last.Some? && end.last.value.dismissed == DismissedIn(end.comments)
        && end.last.value.promoted == PromotedIn(end.comments)
      && (forall id ::
        id in DismissedIn(end.comments)
        <==> id in DismissedIn(list) || (id in Asked(list, 0, answered, Dismiss) && id in posted))
      && (forall id :: id in PromotedIn(end.comments) <==>
            id in PromotedIn(list) || (id in Asked(list, 0, answered, Promote) && Fileable(posted, s.issues, id)))
      && (forall id :: id in DismissedIn(list) ==> DismissedIn(end.comments)[id] == DismissedIn(list)[id])
      && (forall id :: id in DismissedIn(end.comments) && id !in DismissedIn(list) ==>
            DismissedIn(end.comments)[id] == posted[id].(id := id))
      && (forall id :: id in PromotedIn(list) ==> PromotedIn(end.comments)[id] == PromotedIn(list)[id])
      && FiledOnly(s.issues, end.issues, Asked(list, 0, answered, Promote), posted)
      && list <= end.comments && (forall c :: |list| <= c < |end.comments| ==> IsRecord(end.comments[c]))
      && end.last.value.answered == |end.comments| - |list|
  {
    hide Asked, FiledOnly, Fileable;
    StartKeeps(s);
    var started := Happen(s, Start);
    var swept := SweepsOn(started, s.comments);
    SweptIsAnswered(swept);
    var end := OneStep(swept);
    assert end.pc.Idle? && Finish(end) == end;
  }

  // ------------------------------------------------------------ who is listened to

  /** A comment as a sweep may take it: an untrusted one is nothing, unless it is qare's own and no reply. */
  function Hushed(c: Comment): Comment {
    if c.trusted || (c.own && !c.body.Reply?) then c else c.(body := Other)
  }

  function AllHushed(comments: seq<Comment>): (hushed: seq<Comment>)
    ensures |hushed| == |comments| && forall c :: 0 <= c < |comments| ==> hushed[c] == Hushed(comments[c])
  {
    seq(|comments|, c requires 0 <= c < |comments| => Hushed(comments[c]))
  }

  function HushedSys(s: Sys): Sys {
    s.(comments := AllHushed(s.comments))
  }

  function HushedEvent(e: Event): Event {
    if e.Post? then Post(Hushed(e.comment)) else e
  }

  function AllEventsHushed(schedule: Schedule): Schedule {
    if schedule == [] then [] else [HushedEvent(schedule[0])] + AllEventsHushed(schedule[1..])
  }

  lemma {:induction false} HushedAppend(comments: seq<Comment>, c: Comment)
    ensures AllHushed(comments + [c]) == AllHushed(comments) + [Hushed(c)]
  {
  }

  /** What the comments say of evidence and of what was answered is qare's own word, which stays. */
  lemma {:induction false} HushedSaysTheSame(comments: seq<Comment>)
    ensures PostedIn(AllHushed(comments)) == PostedIn(comments) && Answered(AllHushed(comments)) == Answered(comments)
    ensures DismissedIn(AllHushed(comments)) == DismissedIn(comments)
    ensures PromotedIn(AllHushed(comments)) == PromotedIn(comments)
  {
    if comments != [] {
      var n := |comments| - 1;
      HushedSaysTheSame(comments[..n]);
      assert AllHushed(comments)[..n] == AllHushed(comments[..n]);
    }
  }

  lemma {:induction false} HushedStep(s: Sys)
    requires Inv(s)
    ensures StepSweep(HushedSys(s)) == HushedSys(StepSweep(s))
  {
    if s.pc.AtId? {
      HushedAppend(s.comments, Comment(true, false, Record(s.pc.k, s.pc.dismissed, s.pc.promoted)));
      InvAtId(s);
      AsksAtId(s);
      hide Inv;
    }
  }

  lemma {:induction false} AsksAtId(s: Sys)
    requires Inv(s) && s.pc.AtId?
    ensures Asks(s.comments[s.pc.k]) && Hushed(s.comments[s.pc.k]) == s.comments[s.pc.k]
  {
  }

  lemma {:induction false} HushedEventDoes(s: Sys, e: Event)
    requires Inv(s)
    ensures Happen(HushedSys(s), HushedEvent(e)) == HushedSys(Happen(s, e))
  {
    hide Inv, StepSweep, PostedIn, Answered, DismissedIn, PromotedIn;
    match e
    case Start => HushedSaysTheSame(s.comments);
    case Step => HushedStep(s);
    case Die =>
    case Post(comment) => HushedAppend(s.comments, comment);
    case File(_) =>
  }

  /**
   Only who may reply is listened to. Over any history, with the comments of everybody
   else made to say nothing, sweeps come to the same issues, the same records and the
   same sets.
   */
  lemma {:induction false} StrangersChangeNothing(s: Sys, schedule: Schedule)
    requires Inv(s)
    ensures Exec(HushedSys(s), AllEventsHushed(schedule)) == HushedSys(Exec(s, schedule))
    decreases |schedule|
  {
    if schedule != [] {
      hide Inv, Happen, HushedSys, HushedEvent;
      EventKeeps(s, schedule[0]);
      HushedEventDoes(s, schedule[0]);
      StrangersChangeNothing(Happen(s, schedule[0]), schedule[1..]);
      assert AllEventsHushed(schedule)[1..] == AllEventsHushed(schedule[1..]);
    }
  }

  // -------------------------------------------------------- what the comments stand for

  predicate LastIn(list: seq<Finding>, id: Id, j: int) {
    0 <= j < |list| && list[j].id == id && forall k :: j < k < |list| ==> list[k].id != id
  }

  predicate LastPromotion(list: seq<Promotion>, id: Id, j: int) {
    0 <= j < |list| && list[j].id == id && forall k :: j < k < |list| ==> list[k].id != id
  }

  ghost predicate Lists(list: seq<Finding>, id: Id) {
    exists j :: LastIn(list, id, j)
  }

  ghost predicate ListsPromotion(list: seq<Promotion>, id: Id) {
    exists j :: LastPromotion(list, id, j)
  }

  lemma {:induction false} AddDismissedSays(m: map<Id, Finding>, list: seq<Finding>, id: Id)
    ensures id in AddDismissed(m, list) <==> Lists(list, id) || id in m
    ensures id in AddDismissed(m, list) ==>
      if Lists(list, id) then exists j :: LastIn(list, id, j) && AddDismissed(m, list)[id] == list[j]
      else AddDismissed(m, list)[id] == m[id]
  {
    if list != [] {
      var n := |list| - 1;
      AddDismissedSays(m, list[..n], id);
      if list[n].id == id {
        assert LastIn(list, id, n);
      } else {
        if j :| LastIn(list, id, j) {
          assert LastIn(list[..n], id, j);
        }
        if j :| LastIn(list[..n], id, j) && AddDismissed(m, list)[id] == list[..n][j] {
          assert LastIn(list, id, j);
        }
      }
    }
  }

  lemma {:induction false} AddPromotedSays(m: map<Id, nat>, list: seq<Promotion>, id: Id)
    ensures id in AddPromoted(m, list) <==> ListsPromotion(list, id) || id in m
    ensures id in AddPromoted(m, list) ==>
      if ListsPromotion(list, id)
        then exists j :: LastPromotion(list, id, j) && AddPromoted(m, list)[id] == list[j].issue
      else AddPromoted(m, list)[id] == m[id]
  {
    if list != [] {
      var n := |list| - 1;
      AddPromotedSays(m, list[..n], id);
      if list[n].id == id {
        assert LastPromotion(list, id, n);
      } else {
        if j :| LastPromotion(list, id, j) {
          assert LastPromotion(list[..n], id, j);
        }
        if j :| LastPromotion(list[..n], id, j) && AddPromoted(m, list)[id] == list[..n][j].issue {
          assert LastPromotion(list, id, j);
        }
      }
    }
  }

  ghost predicate DismissesIt(c: Comment, id: Id) {
    c.own && c.body.Record? && Lists(c.body.dismissed, id)
  }

  ghost predicate PromotesIt(c: Comment, id: Id) {
    c.own && c.body.Record? && ListsPromotion(c.body.promoted, id)
  }

  ghost predicate LastDismissal(comments: seq<Comment>, id: Id, c: int) {
    && 0 <= c < |comments| && DismissesIt(comments[c], id)
    && forall d :: c < d < |comments| ==> !DismissesIt(comments[d], id)
  }

  ghost predicate LastToPromote(comments: seq<Comment>, id: Id, c: int) {
    && 0 <= c < |comments| && PromotesIt(comments[c], id)
    && forall d :: c < d < |comments| ==> !PromotesIt(comments[d], id)
  }

  predicate LastEvidence(comments: seq<Comment>, c: int) {
    && 0 <= c < |comments| && comments[c].own && comments[c].body.Evidence?
    && forall d :: c < d < |comments| ==> !(comments[d].own && comments[d].body.Evidence?)
  }

  /** A finding is dismissed as the last entry of the last record of qare's own that dismisses it has it. */
  lemma {:induction false} DismissedIsRecorded(comments: seq<Comment>, id: Id)
    ensures id in DismissedIn(comments) <==> exists c :: 0 <= c < |comments| && DismissesIt(comments[c], id)
    ensures id in DismissedIn(comments) ==>
      exists c, j :: LastDismissal(comments, id, c) && LastIn(comments[c].body.dismissed, id, j)
        && DismissedIn(comments)[id] == comments[c].body.dismissed[j]
  {
    if comments != [] {
      var n := |comments| - 1;
      var rest := comments[..n];
      DismissedIsRecorded(rest, id);
      if IsRecord(comments[n]) {
        AddDismissedSays(DismissedIn(rest), comments[n].body.dismissed, id);
      }
      hide AddDismissed, LastIn, Lists;
      if DismissesIt(comments[n], id) {
        assert LastDismissal(comments, id, n);
      } else if id in DismissedIn(rest) {
        var c, j :| LastDismissal(rest, id, c) && LastIn(rest[c].body.dismissed, id, j)
          && DismissedIn(rest)[id] == rest[c].body.dismissed[j];
        assert LastDismissal(comments, id, c);
      }
    }
  }

  /** A finding is promoted to what the last entry of the last record of qare's own that promotes it says. */
  lemma {:induction false} PromotedIsRecorded(comments: seq<Comment>, id: Id)
    ensures id in PromotedIn(comments) <==> exists c :: 0 <= c < |comments| && PromotesIt(comments[c], id)
    ensures id in PromotedIn(comments) ==>
      exists c, j :: LastToPromote(comments, id, c) && LastPromotion(comments[c].body.promoted, id, j)
        && PromotedIn(comments)[id] == comments[c].body.promoted[j].issue
  {
    if comments != [] {
      var n := |comments| - 1;
      var rest := comments[..n];
      PromotedIsRecorded(rest, id);
      if IsRecord(comments[n]) {
        AddPromotedSays(PromotedIn(rest), comments[n].body.promoted, id);
      }
      hide AddPromoted, LastPromotion, ListsPromotion;
      if PromotesIt(comments[n], id) {
        assert LastToPromote(comments, id, n);
      } else if id in PromotedIn(rest) {
        var c, j :| LastToPromote(rest, id, c) && LastPromotion(rest[c].body.promoted, id, j)
          && PromotedIn(rest)[id] == rest[c].body.promoted[j].issue;
        assert LastToPromote(comments, id, c);
      }
    }
  }

  /** What is posted is what the last evidence of qare's own lists, and of findings listed twice the last. */
  lemma {:induction false} PostedIsTheLastEvidence(comments: seq<Comment>, id: Id)
    ensures id in PostedIn(comments) <==> exists c :: LastEvidence(comments, c) && Lists(comments[c].body.findings, id)
    ensures id in PostedIn(comments) ==>
      exists c, j :: LastEvidence(comments, c) && LastIn(comments[c].body.findings, id, j)
        && PostedIn(comments)[id] == comments[c].body.findings[j]
  {
    if comments != [] {
      var n := |comments| - 1;
      var rest := comments[..n];
      if comments[n].own && comments[n].body.Evidence? {
        AddDismissedSays(map[], comments[n].body.findings, id);
        assert LastEvidence(comments, n);
      } else {
        PostedIsTheLastEvidence(rest, id);
        assert forall c :: LastEvidence(rest, c) <==> LastEvidence(comments, c) by {
          forall c ensures LastEvidence(rest, c) <==> LastEvidence(comments, c) {
          }
        }
        hide AddDismissed, LastIn, Lists, LastEvidence;
      }
    }
  }
}
