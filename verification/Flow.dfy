/**
 The flow interpreter: it drives a page through a list of actions, gives an action
 whose element moved one second chance, takes screenshots, frames and audit pictures
 on the way, and says what came of it. The page is an adversary: whatever it is asked
 may throw, take as many timer ticks as it likes, and see the flow aborted meanwhile.
 */
module Flow {
  import opened Prelude

  /** How an action names its element: by test id, or by role and name with a snapshot path when it has one. */
  datatype Element = TestId(id: string) | Role(role: string, name: string, at: Option<string>)

  datatype Action =
    | Open(url: string)
    | Type(element: Element, value: string)
    | Click(element: Element)
    | Choose(element: Element, value: string)
    | WaitFor(element: Element)
    | AssertText(text: string)
    | AssertElement(element: Element)
    | Capture
    | Totp(element: Element)
    | BackupCode(element: Element)
    | Unknown(kind: string)

  datatype Outcome = Passed | Failed | Unverified

  /** What the identity rule says of a failed reference: the element's new path, or a refusal. */
  datatype Repair = Apply(path: string) | Review

  /** What comes of one call of the page. `undecided` is an assertion's error that decides nothing. */
  datatype Answer = Answer(ok: bool, undecided: bool, ticks: nat, aborts: bool, repair: Repair, again: bool)

  /** What the seam and the run hand the interpreter. `cells` is how many width and theme pairs an audit covers. */
  datatype Options = Options(
    actions: seq<Action>,
    conceals: bool,
    frames: bool,
    snapshots: bool,
    audits: bool,
    cells: Option<nat>,
    codesOnPage: bool,
    totp: bool,
    backupCode: bool,
    traceStarts: bool,
    startsAborted: bool,
    typesSecret: (nat, Element, string) -> bool,
    page: nat -> Answer)

  datatype Picture = Screenshot | Frame | AuditPicture

  /**
   What matters to what a picture may show, in the order it happens: what is typed, at
   the moment it is attempted, and every picture started.
   */
  datatype Event = CodeTyped | SecretTyped(element: Element) | Started(picture: Picture, conceal: seq<Element>)

  datatype Went = Done | Threw(undecided: bool)

  /**
   An action as it was put to the page, with its place in the plan, what came of it, and
   how often the page had been asked before it and when it was over.
   */
  datatype Drive = Drive(index: nat, action: Action, result: Went, start: nat, asked: nat)

  datatype Recorder = NoRecorder | Live | Stopped

  // ----------------------------------------------------------- what a trace may hold

  function CodeIn(trace: seq<Event>): bool {
    trace != [] && (trace[|trace| - 1].CodeTyped? || CodeIn(trace[..|trace| - 1]))
  }

  function SecretsIn(trace: seq<Event>): set<Element> {
    if trace == [] then {}
    else
      var before, last := SecretsIn(trace[..|trace| - 1]), trace[|trace| - 1];
      if last.SecretTyped? then before + {last.element} else before
  }

  /** A picture may be started only where it can show no code, and no secret but behind a cover. */
  predicate MayStart(o: Options, before: seq<Event>, conceal: seq<Element>) {
    && !o.codesOnPage && !CodeIn(before)
    && (if o.conceals then forall e :: e in SecretsIn(before) ==> e in conceal else SecretsIn(before) == {})
  }

  predicate Safe(o: Options, trace: seq<Event>) {
    trace == []
    || (Safe(o, trace[..|trace| - 1])
        && (trace[|trace| - 1].Started? ==> MayStart(o, trace[..|trace| - 1], trace[|trace| - 1].conceal)))
  }

  /** What is on the trace stays on it. */
  lemma {:induction false} StillShown(o: Options, driven: seq<Drive>, trace: seq<Event>, e: Event)
    ensures Attempted(o, driven, trace) ==> Attempted(o, driven, trace + [e])
  {
    hide CodeIn, SecretsIn;
    OneMoreEvent(o, trace, e);
  }

  lemma {:induction false} OneMoreShown(o: Options, driven: seq<Drive>, d: Drive, trace: seq<Event>)
    requires Attempted(o, driven, trace) && Shows(o, d, trace)
    ensures Attempted(o, driven + [d], trace)
  {
    hide Shows;
  }

  /** One event more. */
  lemma {:induction false} OneMoreEvent(o: Options, trace: seq<Event>, e: Event)
    ensures CodeIn(trace + [e]) <==> CodeIn(trace) || e.CodeTyped?
    ensures SecretsIn(trace + [e]) == SecretsIn(trace) + if e.SecretTyped? then {e.element} else {}
    ensures Safe(o, trace + [e]) <==> Safe(o, trace) && (e.Started? ==> MayStart(o, trace, e.conceal))
  {
    assert (trace + [e])[..|trace|] == trace;
  }

  lemma {:induction false} SafeUpTo(o: Options, trace: seq<Event>, n: nat)
    requires Safe(o, trace) && n <= |trace|
    ensures Safe(o, trace[..n])
    decreases |trace| - n
  {
    if n == |trace| {
      assert trace[..n] == trace;
    } else {
      SafeUpTo(o, trace, n + 1);
      assert trace[..n + 1][..n] == trace[..n];
    }
  }

  lemma {:induction false} SeenBefore(trace: seq<Event>, i: nat)
    requires i < |trace|
    ensures trace[i].CodeTyped? ==> CodeIn(trace)
    ensures trace[i].SecretTyped? ==> trace[i].element in SecretsIn(trace)
  {
    if i < |trace| - 1 {
      SeenBefore(trace[..|trace| - 1], i);
    }
  }

  /**
   What a safe trace means. No picture is started after a code was typed, or at all
   on a page that came with one; and after a secret was typed, none is started by a
   driver that cannot cover it, and every one by a driver that can covers it.
   */
  lemma {:induction false} NoPictureShowsASecret(o: Options, trace: seq<Event>, i: nat, j: nat)
    requires Safe(o, trace) && i < j < |trace| && trace[j].Started?
    ensures !o.codesOnPage && !trace[i].CodeTyped?
    ensures trace[i].SecretTyped? ==> o.conceals && trace[i].element in trace[j].conceal
  {
    SafeUpTo(o, trace, j + 1);
    assert trace[..j + 1][..j] == trace[..j];
    SeenBefore(trace[..j], i);
  }

  // -------------------------------------------------------------- what was driven

  predicate IsAssertion(a: Action) {
    a.AssertText? || a.AssertElement?
  }

  predicate Repairable(a: Action) {
    a.Type? || a.Click? || a.Choose? || a.WaitFor? || a.Totp? || a.BackupCode?
  }

  predicate ActsOnPage(a: Action) {
    a.Open? || a.Type? || a.Click? || a.Choose? || a.Totp? || a.BackupCode?
  }

  predicate SettlesPage(a: Action) {
    a.Open? || a.WaitFor? || IsAssertion(a)
  }

  function WithPath(a: Action, path: string): Action
    requires Repairable(a) && a.element.Role?
  {
    var element := a.element.(at := Some(path));
    match a
    case Type(_, value) => Type(element, value)
    case Click(_) => Click(element)
    case Choose(_, value) => Choose(element, value)
    case WaitFor(_) => WaitFor(element)
    case Totp(_) => Totp(element)
    case BackupCode(_) => BackupCode(element)
  }

  /** One element is another found at a given path. */
  predicate Moved(e: Element, f: Element, path: string) {
    e.Role? && f == Role(e.role, e.name, Some(path))
  }

  /** A copy of an action that differs in the path of its element alone, which is the given one. */
  predicate IsCopy(a: Action, b: Action, path: string) {
    match a
    case Type(element, value) => b.Type? && b.value == value && Moved(element, b.element, path)
    case Click(element) => b.Click? && Moved(element, b.element, path)
    case Choose(element, value) => b.Choose? && b.value == value && Moved(element, b.element, path)
    case WaitFor(element) => b.WaitFor? && Moved(element, b.element, path)
    case Totp(element) => b.Totp? && Moved(element, b.element, path)
    case BackupCode(element) => b.BackupCode? && Moved(element, b.element, path)
    case _ => false
  }

  /** An element that is named by its role and was seen at a path when the flow was written. */
  predicate HasPath(e: Element) {
    e.Role? && e.at.Some?
  }

  /**
   What has a second chance once it threw: an action on an element with a path, other
   than an assertion, on a page that gives a snapshot, in which the element is found.
   */
  predicate SecondChance(o: Options, a: Action, asked: nat) {
    && (match a
        case Type(element, _) => HasPath(element)
        case Click(element) => HasPath(element)
        case Choose(element, _) => HasPath(element)
        case WaitFor(element) => HasPath(element)
        case Totp(element) => HasPath(element)
        case BackupCode(element) => HasPath(element)
        case _ => false)
    && o.snapshots && o.page(asked).ok && o.page(asked).repair.Apply?
  }

  /**
   The second drive of the `index`-th action, which threw: a copy with the path it was
   found at when the page was asked for the `asked`-th time, put to the page next.
   */
  predicate DrivenAgain(o: Options, index: nat, action: Action, asked: nat, again: Drive) {
    && again.index == index && again.start == asked + 1
    && o.page(asked).repair.Apply? && IsCopy(action, again.action, o.page(asked).repair.path)
    && again.result == ComesTo(o, again.action, asked + 1, false)
  }

  /**
   The second chance of an action that threw is taken where it has one, and it goes on if
   and only if the second drive goes well; where it has none, nothing more is driven.
   */
  ghost predicate ChanceTaken(o: Options, index: nat, action: Action, asked: nat, before: seq<Drive>,
      driven: seq<Drive>, goesOn: bool)
  {
    if SecondChance(o, action, asked)
      then exists again: Drive ::
        driven == before + [again] && DrivenAgain(o, index, action, asked, again) && goesOn == again.result.Done?
    else driven == before && !goesOn
  }

  /** The last of what was driven is an action of the plan as it is written. */
  predicate EndsPlanned(o: Options, n: nat, driven: seq<Drive>)
    requires n < |o.actions|
  {
    driven != [] && driven[|driven| - 1].index == n && driven[|driven| - 1].action == o.actions[n]
  }

  /** An action of the plan threw, had its second chance, and was driven once more. */
  predicate EndsAgain(o: Options, n: nat, driven: seq<Drive>)
    requires n < |o.actions|
  {
    && |driven| >= 2 && EndsPlanned(o, n, driven[..|driven| - 1])
    && driven[|driven| - 2].result.Threw? && SecondChance(o, o.actions[n], driven[|driven| - 2].asked)
    && DrivenAgain(o, n, o.actions[n], driven[|driven| - 2].asked, driven[|driven| - 1])
  }

  /**
   The first `n` actions went through: each was driven as planned, or threw and was
   driven once more as a repaired copy.
   */
  ghost predicate WentThrough(o: Options, n: nat, driven: seq<Drive>)
    requires n <= |o.actions|
  {
    if n == 0 then driven == []
    else
      && driven != [] && driven[|driven| - 1].result.Done?
      && ((EndsPlanned(o, n - 1, driven) && WentThrough(o, n - 1, driven[..|driven| - 1]))
          || (EndsAgain(o, n - 1, driven) && WentThrough(o, n - 1, driven[..|driven| - 2])))
  }

  /** An assertion, driven as written after all before it went through, raised an error that decides. */
  ghost predicate AssertionFailed(o: Options, driven: seq<Drive>) {
    exists n :: 0 <= n < |o.actions| && IsAssertion(o.actions[n]) && EndsPlanned(o, n, driven)
      && driven[|driven| - 1].result == Threw(false) && WentThrough(o, n, driven[..|driven| - 1])
  }

  /**
   An action threw after all before it went through, was no assertion that decided, and
   had no second chance; or had one, and threw again.
   */
  ghost predicate Stuck(o: Options, driven: seq<Drive>) {
    exists n :: 0 <= n < |o.actions| && StuckAt(o, n, driven)
  }

  ghost predicate StuckAt(o: Options, n: nat, driven: seq<Drive>)
    requires n < |o.actions|
  {
    && driven != [] && driven[|driven| - 1].result.Threw?
    && ((EndsPlanned(o, n, driven) && !(IsAssertion(o.actions[n]) && !driven[|driven| - 1].result.undecided)
         && !SecondChance(o, o.actions[n], driven[|driven| - 1].asked)
         && WentThrough(o, n, driven[..|driven| - 1]))
        || (EndsAgain(o, n, driven) && WentThrough(o, n, driven[..|driven| - 2])))
  }

  // ------------------------------------------------------------ where a flow is audited

  /** An action that may change the page. */
  predicate Acted(a: Action) {
    match a
    case Open(_) => true
    case Type(_, _) => true
    case Click(_) => true
    case Choose(_, _) => true
    case Totp(_) => true
    case BackupCode(_) => true
    case _ => false
  }

  /** An action after which the plan itself says the page has settled. */
  predicate Settled(a: Action) {
    match a
    case Open(_) => true
    case WaitFor(_) => true
    case AssertText(_) => true
    case AssertElement(_) => true
    case _ => false
  }

  /** Something acted on the page before the `i`-th action, and the page has not settled since. */
  predicate ActedSince(actions: seq<Action>, i: nat)
    requires i <= |actions|
  {
    exists q :: 0 <= q < i && Acted(actions[q]) && forall r :: q <= r < i ==> !Settled(actions[r])
  }

  /** The page settles at the `p`-th action for the first time since something acted on it. */
  predicate AuditDue(actions: seq<Action>, p: nat)
    requires p < |actions|
  {
    Settled(actions[p]) && (Acted(actions[p]) || ActedSince(actions, p))
  }

  /** The actions before the `i`-th at which an audit is due, in order. */
  function AuditPoints(actions: seq<Action>, i: nat): seq<nat>
    requires i <= |actions|
  {
    if i == 0 then []
    else AuditPoints(actions, i - 1) + if AuditDue(actions, i - 1) then [i - 1] else []
  }

  /**
   The audits begun by the time `i` actions have gone through: at each point one was due,
   or at each up to the first that could not be made.
   */
  ghost predicate AuditsUpTo(o: Options, i: nat, audited: seq<nat>, failed: bool)
    requires i <= |o.actions|
  {
    if o.cells.None? then audited == [] && !failed
    else if !failed then audited == AuditPoints(o.actions, i)
    else exists m: nat :: m <= i && audited == AuditPoints(o.actions, m)
  }

  /** The audits of a flow that passed: one more at its end, if something acted on the page that has not settled. */
  ghost predicate AuditsToTheEnd(o: Options, audited: seq<nat>, failed: bool) {
    var n := |o.actions|;
    var all := AuditPoints(o.actions, n) + if ActedSince(o.actions, n) then [n] else [];
    if o.cells.None? then audited == [] && !failed
    else if !failed then audited == all
    else audited == all || exists m: nat :: m <= n && audited == AuditPoints(o.actions, m)
  }

  lemma {:induction false} AuditedAtTheEnd(o: Options, audited: seq<nat>, failed: bool, acted: bool,
      audited': seq<nat>, failed': bool)
    requires AuditsUpTo(o, |o.actions|, audited, failed)
    requires o.cells.Some? && !failed ==> (acted <==> ActedSince(o.actions, |o.actions|))
    requires if o.cells.Some? && acted && !failed then audited' == audited + [|o.actions|]
      else audited' == audited && failed' == failed
    ensures AuditsToTheEnd(o, audited', failed')
  {
    hide ActedSince;
  }

  lemma {:induction false} OneActionMore(o: Options, i: nat, audited: seq<nat>, failed: bool, audited': seq<nat>,
      failed': bool)
    requires i < |o.actions| && AuditsUpTo(o, i, audited, failed)
    requires if o.cells.None? || failed || !AuditDue(o.actions, i) then audited' == audited && failed' == failed
      else audited' == audited + [i]
    ensures AuditsUpTo(o, i + 1, audited', failed')
  {
    hide AuditDue;
    assert AuditPoints(o.actions, i + 1)
      == AuditPoints(o.actions, i) + if AuditDue(o.actions, i) then [i] else [];
  }

  lemma {:induction false} ActedSinceGoesOn(actions: seq<Action>, i: nat)
    requires i < |actions|
    ensures ActedSince(actions, i + 1) <==> !Settled(actions[i]) && (Acted(actions[i]) || ActedSince(actions, i))
  {
    hide Acted, Settled;
    if q :| 0 <= q < i + 1 && Acted(actions[q]) && forall r :: q <= r < i + 1 ==> !Settled(actions[r]) {
      assert !Settled(actions[i]);
      assert q < i ==> ActedSince(actions, i);
    }
    if !Settled(actions[i]) && Acted(actions[i]) {
      assert forall r :: i <= r < i + 1 ==> !Settled(actions[r]);
    }
  }

  /** What one audit asked the page: cell after cell, all of them, or up to the first that failed. */
  predicate AuditAsked(o: Options, from: nat, to: nat, failed: bool)
    requires o.cells.Some?
  {
    if !o.audits then to == from && failed
    else
      && from <= to <= from + o.cells.value
      && (forall k :: from <= k < to - 1 ==> o.page(k).ok)
      && (if failed then to > from && !o.page(to - 1).ok
          else to == from + o.cells.value && (to > from ==> o.page(to - 1).ok))
  }

  /** Nothing was started since but frames. */
  predicate FramesOnly(before: seq<Event>, now: seq<Event>) {
    && before <= now
    && forall k :: |before| <= k < |now| ==> now[k].Started? && now[k].picture.Frame?
  }

  /** How many pictures were started for audits. */
  function AuditPictures(trace: seq<Event>): nat {
    if trace == [] then 0
    else
      var last := trace[|trace| - 1];
      AuditPictures(trace[..|trace| - 1]) + if last.Started? && last.picture.AuditPicture? then 1 else 0
  }

  lemma {:induction false} OneAuditPictureMore(trace: seq<Event>, conceal: seq<Element>)
    ensures AuditPictures(trace + [Started(AuditPicture, conceal)]) == AuditPictures(trace) + 1
  {
    assert (trace + [Started(AuditPicture, conceal)])[..|trace|] == trace;
  }

  lemma {:induction false} FramesAuditNothing(before: seq<Event>, now: seq<Event>)
    requires FramesOnly(before, now)
    ensures AuditPictures(now) == AuditPictures(before)
    decreases |now|
  {
    if |now| > |before| {
      FramesAuditNothing(before, now[..|now| - 1]);
    } else {
      assert now == before;
    }
  }

  /** The last picture of the page but for frames is a screenshot, and it is taken right after a frame, if so asked. */
  ghost predicate EndsInScreenshot(trace: seq<Event>, framed: bool) {
    exists before: seq<Event>, conceal: seq<Element> ::
      && FramesOnly(before + [Started(Picture.Screenshot, conceal)], trace)
      && (framed ==>
            before != [] && before[|before| - 1].Started? && before[|before| - 1].picture.Frame?)
  }

  function WhatCame(a: Answer): Went {
    if a.ok then Done else Threw(a.undecided)
  }

  predicate TypesCode(a: Action) {
    a.Totp? || a.BackupCode?
  }

  /**
   What an action comes to when the page is asked for the `n`-th time next: what the
   page answers its one call. A screenshot that is withheld is not asked for, and a
   generated code is waited for first, then typed, and typed once more when its window
   has passed.
   */
  function ComesTo(o: Options, action: Action, n: nat, withheld: bool): Went {
    match action
    case Capture => if withheld then Done else WhatCame(o.page(n))
    case Totp(_) => WhatCame(o.page(if o.page(n + 1).ok && o.page(n).again then n + 2 else n + 1))
    case _ => WhatCame(o.page(n))
  }

  /**
   An action comes to what the page answers its last call, but for the snapshot of an
   assertion that holds; nothing is asked for a screenshot that is withheld, which is done;
   and a code that was typed is typed again in the window it then is in, if that is another.
   */
  lemma {:induction false} LastAnswerCounts(o: Options, action: Action, n: nat, withheld: bool)
    ensures var asks := AsksOf(o, action, n, withheld); var came := ComesTo(o, action, n, withheld);
      if asks == 0 then action.Capture? && withheld && came.Done?
      else if IsAssertion(action) then
        came == WhatCame(o.page(n)) && (asks == 2 <==> came.Done? && o.snapshots && !AbortedBy(o, n + 1))
      else
        && came == WhatCame(o.page(n + asks - 1))
        && (asks > 1 <==> action.Totp?)
        && (asks == 3 <==> action.Totp? && o.page(n + 1).ok && o.page(n).again)
  {
  }

  /** Whether the run was aborted by the time the page had been asked `n` times. */
  function AbortedBy(o: Options, n: nat): bool {
    if n == 0 then o.startsAborted else AbortedBy(o, n - 1) || o.page(n - 1).aborts
  }

  lemma {:induction false} AbortedStays(o: Options, m: nat, n: nat)
    requires m <= n && AbortedBy(o, m)
    ensures AbortedBy(o, n)
  {
    if m < n {
      AbortedStays(o, m, n - 1);
    }
  }

  lemma {:induction false} AbortedOnce(o: Options, driven: seq<Drive>, n: nat)
    requires !AbortedBy(o, n) && NextStart(o, driven, n)
    ensures driven != [] ==> !AbortedBy(o, driven[|driven| - 1].asked)
  {
    hide AbortedBy;
    if driven != [] && AbortedBy(o, driven[|driven| - 1].asked) {
      AbortedStays(o, driven[|driven| - 1].asked, n);
    }
  }

  /**
   How often the page is asked for an action when it has been asked `n` times: once, but
   not for a screenshot that is withheld, once more for the snapshot of an assertion that
   holds, and for a generated code as often as it is waited for and typed.
   */
  function AsksOf(o: Options, action: Action, n: nat, withheld: bool): nat {
    match action
    case Capture => if withheld then 0 else 1
    case AssertText(_) => if o.page(n).ok && o.snapshots && !AbortedBy(o, n + 1) then 2 else 1
    case AssertElement(_) => if o.page(n).ok && o.snapshots && !AbortedBy(o, n + 1) then 2 else 1
    case Totp(_) => if o.page(n + 1).ok && o.page(n).again then 3 else 2
    case _ => 1
  }

  /** A code was put on the page by what was driven. */
  predicate CodeDriven(driven: seq<Drive>) {
    exists k :: 0 <= k < |driven| && (driven[k].action.Totp? || driven[k].action.BackupCode?)
  }

  /** A secret was. */
  predicate SecretDriven(o: Options, driven: seq<Drive>) {
    exists k :: 0 <= k < |driven| && TypesSecret(o, driven[k].index, driven[k].action)
  }

  predicate TypesSecret(o: Options, index: nat, a: Action) {
    a.Type? && o.typesSecret(index, a.element, a.value)
  }

  lemma {:induction false} OneMoreDriven(o: Options, driven: seq<Drive>, d: Drive)
    ensures CodeDriven(driven + [d]) <==> CodeDriven(driven) || TypesCode(d.action)
    ensures SecretDriven(o, driven + [d]) <==> SecretDriven(o, driven) || TypesSecret(o, d.index, d.action)
  {
    var all := driven + [d];
    assert all[|driven|] == d && forall k :: 0 <= k < |driven| ==> all[k] == driven[k];
  }

  /** A screenshot is withheld from a page that may show what was typed into it, and once the run was aborted. */
  predicate Withheld(o: Options, driven: seq<Drive>, n: nat) {
    o.codesOnPage || CodeDriven(driven) || (!o.conceals && SecretDriven(o, driven)) || AbortedBy(o, n)
  }

  /**
   How often the page may have been asked when the next action is put to it: never before
   the first, and after another as often as it took, with what an audit or the snapshot for
   a second chance asks on top.
   */
  predicate NextStart(o: Options, driven: seq<Drive>, n: nat) {
    if driven == [] then n == 0
    else
      var last := driven[|driven| - 1];
      if last.result.Threw? then n == last.asked + 1
      else last.asked <= n <= last.asked + if o.cells.Some? then o.cells.value else 0
  }

  /** What was driven is what the page was asked, one thing after another, and came to what the page answered. */
  predicate Followed(o: Options, driven: seq<Drive>) {
    driven == []
    || var before, d := driven[..|driven| - 1], driven[|driven| - 1];
       && Followed(o, before) && NextStart(o, before, d.start)
       && d.result == ComesTo(o, d.action, d.start, Withheld(o, before, d.start))
       && d.asked == d.start + AsksOf(o, d.action, d.start, Withheld(o, before, d.start))
  }

  lemma {:induction false} FollowedOneMore(o: Options, driven: seq<Drive>, d: Drive)
    requires Followed(o, driven) && NextStart(o, driven, d.start)
    requires d.result == ComesTo(o, d.action, d.start, Withheld(o, driven, d.start))
    requires d.asked == d.start + AsksOf(o, d.action, d.start, Withheld(o, driven, d.start))
    ensures Followed(o, driven + [d])
  {
    assert (driven + [d])[..|driven|] == driven;
  }

  predicate Shows(o: Options, d: Drive, trace: seq<Event>) {
    && (TypesCode(d.action) ==> CodeIn(trace))
    && (d.action.Type? && o.typesSecret(d.index, d.action.element, d.action.value) ==>
      d.action.element in SecretsIn(trace))
  }

  /** Every code and every secret that was driven is on the trace. */
  ghost predicate Attempted(o: Options, driven: seq<Drive>, trace: seq<Event>) {
    forall k :: 0 <= k < |driven| ==> Shows(o, driven[k], trace)
  }

  class Run {
    const o: Options
    var asked: nat
    var aborted: bool
    var codeOnPage: bool
    var secretOnPage: bool
    var concealed: seq<Element>
    var recorder: Recorder
    var actedSinceAudit: bool
    var auditFailed: bool
    ghost var trace: seq<Event>
    ghost var driven: seq<Drive>
    /** The actions after which an audit was begun; their number, for the one at the end. */
    ghost var audited: seq<nat>

    /**
     What is on the page is known, nothing records what must not be seen, and no picture
     was started that shows it.
     */
    ghost predicate Sound()
      reads this
    {
      && Safe(o, trace)
      && (o.codesOnPage || CodeIn(trace) ==> codeOnPage)
      && (!o.conceals && SecretsIn(trace) != {} ==> secretOnPage)
      && (o.conceals ==> forall e :: e in SecretsIn(trace) ==> e in concealed)
      && (codeOnPage || secretOnPage || (aborted && !o.startsAborted) ==> !recorder.Live?)
      && Attempted(o, driven, trace)
      && aborted == AbortedBy(o, asked)
    }

    /** And while the flow is driven, frames are recorded wherever they may be. */
    ghost predicate Valid()
      reads this
    {
      && Sound()
      && (o.frames && !codeOnPage && !secretOnPage && !(aborted && !o.startsAborted) ==> recorder.Live?)
    }

    /** What counts as being on the page is what was on it, and what was typed into it by what was driven. */
    ghost predicate Marked()
      reads `codeOnPage, `secretOnPage, `driven
    {
      && (codeOnPage <==> o.codesOnPage || CodeDriven(driven))
      && (secretOnPage <==> !o.conceals && SecretDriven(o, driven))
    }

    constructor (o: Options)
      ensures Valid() && this.o == o && Unstarted() && trace == [] && aborted == o.startsAborted
    {
      this.o := o;
      asked, aborted, codeOnPage, secretOnPage, concealed := 0, o.startsAborted, o.codesOnPage, false, [];
      recorder := if o.frames && !o.codesOnPage then Live else NoRecorder;
      actedSinceAudit, auditFailed, trace, driven, audited := false, false, [], [], [];
    }

    /** Nothing was asked, driven or audited yet. */
    ghost predicate Unstarted()
      reads this
    {
      && asked == 0 && codeOnPage == o.codesOnPage && !secretOnPage
      && driven == [] && audited == [] && !actedSinceAudit && !auditFailed
    }

    /** Starts a picture of the page as it is, with every concealed element covered. */
    ghost method Start(picture: Picture)
      requires Valid() && !codeOnPage && !secretOnPage
      modifies `trace
      ensures Valid() && trace == old(trace) + [Started(picture, concealed)]
      ensures CodeIn(trace) == old(CodeIn(trace)) && SecretsIn(trace) == old(SecretsIn(trace))
    {
      OneMoreEvent(o, trace, Started(picture, concealed));
      trace := trace + [Started(picture, concealed)];
    }

    /** Takes a frame, when there is a recorder that takes any. */
    method Sample()
      requires Valid()
      modifies `trace
      ensures Valid()
      ensures trace == if recorder.Live? then old(trace) + [Started(Frame, concealed)] else old(trace)
      ensures CodeIn(trace) == old(CodeIn(trace)) && SecretsIn(trace) == old(SecretsIn(trace))
    {
      if recorder.Live? {
        Start(Frame);
      }
    }

    /** Asks the page something: the timer ticks meanwhile, and the run may be aborted. */
    method Ask() returns (a: Answer)
      requires Valid()
      modifies `asked, `aborted, `recorder, `trace
      ensures Valid() && FramesOnly(old(trace), trace)
      ensures a == o.page(old(asked)) && asked == old(asked) + 1
      ensures CodeIn(trace) == old(CodeIn(trace)) && SecretsIn(trace) == old(SecretsIn(trace))
      ensures aborted <==> old(aborted) || a.aborts
      ensures aborted && !old(aborted) ==> !recorder.Live?
      ensures recorder == old(recorder) || (recorder.Stopped? && old(recorder).Live?)
      ensures |trace| == |old(trace)| + if old(recorder).Live? then a.ticks else 0
    {
      hide Safe, CodeIn, SecretsIn, Attempted;
      a := o.page(asked);
      for i := 0 to a.ticks
        invariant Valid() && asked == old(asked) && aborted == old(aborted) && recorder == old(recorder)
        invariant FramesOnly(old(trace), trace) && |trace| == |old(trace)| + if recorder.Live? then i else 0
        invariant CodeIn(trace) == old(CodeIn(trace)) && SecretsIn(trace) == old(SecretsIn(trace))
      {
        Sample();
      }
      if o.startsAborted {
        AbortedStays(o, 0, asked);
      }
      asked := asked + 1;
      if a.aborts && !aborted {
        aborted := true;
        StopRecorder();
      }
    }

    method StopRecorder()
      modifies `recorder
      ensures !recorder.Live?
      ensures recorder == if old(recorder).Live? then Stopped else old(recorder)
    {
      if recorder.Live? {
        recorder := Stopped;
      }
    }

    /** Before a secret goes in: its element is covered in every later picture, or no later picture is taken. */
    method Conceal(element: Element)
      requires Valid()
      modifies `secretOnPage, `concealed, `recorder
      ensures Valid() && secretOnPage == (old(secretOnPage) || !o.conceals)
      ensures if o.conceals then element in concealed else secretOnPage
    {
      if !o.conceals {
        secretOnPage := true;
        StopRecorder();
        return;
      }
      if element !in concealed {
        concealed := concealed + [element];
      }
    }

    /** A code is about to be typed: the recording ends, and the page counts as showing it from the attempt on. */
    method BeforeCode()
      requires Valid()
      modifies `codeOnPage, `recorder
      ensures Valid() && codeOnPage
    {
      StopRecorder();
      codeOnPage := true;
    }

    /** Takes a screenshot where one may be taken, and none where it may not. */
    method Screenshot() returns (r: Result<bool, bool>)
      requires Valid()
      modifies `asked, `aborted, `recorder, `trace
      ensures Valid() && (old(aborted) ==> aborted)
      ensures if codeOnPage || secretOnPage || old(aborted) then r == Ok(false) && trace == old(trace)
              else FramesOnly(old(trace) + [Started(Picture.Screenshot, concealed)], trace)
                   && WhatCame(o.page(old(asked))) == if r.Ok? then Done else Threw(r.error)
      ensures asked == old(asked) + if codeOnPage || secretOnPage || old(aborted) then 0 else 1
      ensures CodeIn(trace) == old(CodeIn(trace)) && SecretsIn(trace) == old(SecretsIn(trace))
    {
      hide Safe, CodeIn, SecretsIn, Attempted;
      if codeOnPage || secretOnPage || aborted {
        return Ok(false);
      }
      Start(Picture.Screenshot);
      var a := Ask();
      r := if a.ok then Ok(true) else Err(a.undecided);
    }

    /** Hands a value to the page: it counts as typed from the attempt on. */
    method AttemptType(e: Event) returns (r: Went)
      requires Valid() && !e.Started?
      requires e.CodeTyped? ==> codeOnPage
      requires e.SecretTyped? ==> if o.conceals then e.element in concealed else secretOnPage
      modifies `asked, `aborted, `recorder, `trace
      ensures Valid() && (old(aborted) ==> aborted)
      ensures r == WhatCame(o.page(old(asked))) && asked == old(asked) + 1
      ensures e.CodeTyped? || old(CodeIn(trace)) ==> CodeIn(trace)
      ensures SecretsIn(trace) == old(SecretsIn(trace)) + if e.SecretTyped? then {e.element} else {}
    {
      OneMoreEvent(o, trace, e);
      StillShown(o, driven, trace, e);
      hide Safe, CodeIn, SecretsIn, Attempted;
      trace := trace + [e];
      r := CallPage();
    }

    /** One call of the page: what comes of it is what the page answers. */
    method CallPage() returns (r: Went)
      requires Valid()
      modifies `asked, `aborted, `recorder, `trace
      ensures Valid() && (old(aborted) ==> aborted)
      ensures r == WhatCame(o.page(old(asked))) && asked == old(asked) + 1
      ensures CodeIn(trace) == old(CodeIn(trace)) && SecretsIn(trace) == old(SecretsIn(trace))
    {
      var a := Ask();
      r := WhatCame(a);
    }

    /** An assertion on the page, with its snapshot when it holds. */
    method Assert() returns (r: Went)
      requires Valid()
      modifies `asked, `aborted, `recorder, `trace
      ensures Valid() && (old(aborted) ==> aborted)
      ensures r == WhatCame(o.page(old(asked)))
      ensures asked == old(asked) + if r.Done? && o.snapshots && !AbortedBy(o, old(asked) + 1) then 2 else 1
    {
      r := CallPage();
      if r.Done? {
        SnapshotAt();
      }
    }

    /** An assertion's snapshot: it may fail, and its failing changes nothing. */
    method SnapshotAt()
      requires Valid()
      modifies `asked, `aborted, `recorder, `trace
      ensures Valid() && (old(aborted) ==> aborted) && old(trace) <= trace
      ensures asked == old(asked) + if old(aborted) || !o.snapshots then 0 else 1
      ensures CodeIn(trace) == old(CodeIn(trace)) && SecretsIn(trace) == old(SecretsIn(trace))
    {
      if aborted || !o.snapshots {
        return;
      }
      var _ := Ask();
    }

    /** Types a code, and once more when the window it was generated for has passed. */
    method TypeCode(again: bool) returns (r: Went)
      requires Valid()
      modifies `asked, `aborted, `recorder, `trace, `codeOnPage
      ensures Valid() && (old(aborted) ==> aborted)
      ensures CodeIn(trace) && codeOnPage
      ensures var n := old(asked); var twice := o.page(n).ok && again;
        r == WhatCame(o.page(if twice then n + 1 else n)) && asked == n + if twice then 2 else 1
    {
      BeforeCode();
      r := AttemptType(CodeTyped);
      if r.Done? && again {
        r := AttemptType(CodeTyped);
      }
    }

    method TypeValue(index: nat, element: Element, value: string) returns (r: Went)
      requires Valid()
      modifies `asked, `aborted, `recorder, `trace, `secretOnPage, `concealed
      ensures Valid() && (old(aborted) ==> aborted)
      ensures r == WhatCame(o.page(old(asked))) && asked == old(asked) + 1
      ensures o.typesSecret(index, element, value) ==> element in SecretsIn(trace)
      ensures secretOnPage == (old(secretOnPage) || (!o.conceals && o.typesSecret(index, element, value)))
    {
      if o.typesSecret(index, element, value) {
        Conceal(element);
        r := AttemptType(SecretTyped(element));
      } else {
        r := CallPage();
      }
    }

    /** What is withheld is what what was driven says must be. */
    lemma {:induction false} WithheldNow()
      requires Valid() && Marked()
      ensures Withheld(o, driven, asked) == (codeOnPage || secretOnPage || aborted)
    {
      hide Safe, Attempted, CodeIn, SecretsIn, CodeDriven, SecretDriven;
    }

    /** One thing more was driven, and what it typed counts as being on the page already. */
    ghost method Append(code: bool, secret: bool, d: Drive)
      requires Valid() && Shows(o, d, trace) && Followed(o, driven) && NextStart(o, driven, d.start)
      requires code <==> o.codesOnPage || CodeDriven(driven)
      requires secret <==> !o.conceals && SecretDriven(o, driven)
      requires codeOnPage == (code || TypesCode(d.action))
      requires secretOnPage == (secret || (!o.conceals && TypesSecret(o, d.index, d.action)))
      requires d.result == ComesTo(o, d.action, d.start, Withheld(o, driven, d.start))
      requires d.asked == d.start + AsksOf(o, d.action, d.start, Withheld(o, driven, d.start))
      modifies `driven
      ensures Valid() && Marked() && Followed(o, driven) && driven == old(driven) + [d]
    {
      OneMoreShown(o, driven, d, trace);
      OneMoreDriven(o, driven, d);
      FollowedOneMore(o, driven, d);
      hide Followed, ComesTo, AsksOf, NextStart, Withheld, CodeDriven, SecretDriven, CodeIn, SecretsIn, Safe, Attempted,
        AbortedBy, Shows;
      driven := driven + [d];
    }

    /**
     Puts one action to the page. A code or a secret is on the trace from its
     attempt on, and what comes of the action is what the page answers.
     */
    method DriveAction(index: nat, action: Action) returns (r: Went)
      requires Valid() && Marked() && Followed(o, driven) && NextStart(o, driven, asked)
      modifies `asked, `aborted, `recorder, `trace, `codeOnPage, `secretOnPage, `concealed, `driven
      ensures Valid() && (old(aborted) ==> aborted)
      ensures driven == old(driven) + [Drive(index, action, r, old(asked), asked)]
      ensures r == ComesTo(o, action, old(asked), old(codeOnPage || secretOnPage || aborted))
      ensures asked == old(asked) + AsksOf(o, action, old(asked), old(codeOnPage || secretOnPage || aborted))
      ensures Marked() && Followed(o, driven)
      ensures action.Capture? && !old(codeOnPage || secretOnPage || aborted) ==>
        FramesOnly(old(trace) + [Started(Picture.Screenshot, concealed)], trace)
    {
      WithheldNow();
      hide Valid, Marked, ComesTo, AsksOf, Withheld, Followed, NextStart, FramesOnly, Shows;
      ghost var code, secret := codeOnPage, secretOnPage;
      r := Perform(index, action);
      Append(code, secret, Drive(index, action, r, old(asked), asked));
    }

    method Perform(index: nat, action: Action) returns (r: Went)
      requires Valid()
      modifies `asked, `aborted, `recorder, `trace, `codeOnPage, `secretOnPage, `concealed
      ensures Valid() && (old(aborted) ==> aborted)
      ensures Shows(o, Drive(index, action, r, old(asked), asked), trace)
      ensures r == ComesTo(o, action, old(asked), old(codeOnPage || secretOnPage || aborted))
      ensures asked == old(asked) + AsksOf(o, action, old(asked), old(codeOnPage || secretOnPage || aborted))
      ensures codeOnPage == (old(codeOnPage) || TypesCode(action))
      ensures secretOnPage == (old(secretOnPage) || (!o.conceals && TypesSecret(o, index, action)))
      ensures action.Capture? && !old(codeOnPage || secretOnPage || aborted) ==>
        FramesOnly(old(trace) + [Started(Picture.Screenshot, concealed)], trace)
    {
      hide CodeIn, SecretsIn, Safe, Attempted, Valid, AbortedBy, FramesOnly;
      match action {
        case Type(element, value) => r := TypeValue(index, element, value);
        case AssertText(_) => r := Assert();
        case AssertElement(_) => r := Assert();
        case Capture =>
          var taken := Screenshot();
          r := if taken.Ok? then Done else Threw(taken.error);
        case Totp(_) =>
          var waited := Ask();
          r := TypeCode(waited.again);
        case BackupCode(_) => r := TypeCode(false);
        case _ => r := CallPage();
      }
    }

    /**
     The second chance of an action that threw: where it has one, one more drive as a copy
     with the path its element was found at, and the flow goes on if and only if that goes
     well; where it has none, nothing more is driven.
     */
    method RepairLocator(index: nat, action: Action) returns (fixed: bool)
      requires Valid() && Marked() && Followed(o, driven)
      requires driven != [] && driven[|driven| - 1].asked == asked && driven[|driven| - 1].result.Threw?
      modifies `asked, `aborted, `recorder, `trace, `codeOnPage, `secretOnPage, `concealed, `driven
      ensures Valid() && (old(aborted) ==> aborted)
      ensures ChanceTaken(o, index, action, old(asked), old(driven), driven, fixed)
      ensures fixed ==> driven != [] && asked == driven[|driven| - 1].asked && driven[|driven| - 1].result.Done?
      ensures Marked() && Followed(o, driven)
    {
      hide Valid, Marked, ComesTo, AsksOf, Followed;
      if !Repairable(action) || !action.element.Role? || action.element.at.None? || !o.snapshots {
        return false;
      }
      var a := Ask();
      if !a.ok || a.repair.Review? {
        return false;
      }
      var copy := WithPath(action, a.repair.path);
      ghost var withheld := codeOnPage || secretOnPage || aborted;
      var r := DriveAction(index, copy);
      fixed := r.Done?;
      WithheldMattersToNone(o, copy, old(asked) + 1, withheld);
      assert driven == old(driven) + [Drive(index, copy, r, old(asked) + 1, asked)];
    }

    /**
     Audits the page where it has settled, once for all that acted on it since the last
     audit: one cell after another until one cannot be made, which ends the auditing. A cell
     is pictured unless its picture might show a secret.
     */
    method AuditAt(point: nat)
      requires Valid()
      modifies `asked, `aborted, `recorder, `trace, `actedSinceAudit, `auditFailed, `audited
      ensures Valid() && (old(aborted) ==> aborted) && old(trace) <= trace
      ensures o.cells.Some? && old(actedSinceAudit && !auditFailed && !aborted) ==>
        && audited == old(audited) + [point] && !actedSinceAudit && AuditAsked(o, old(asked), asked, auditFailed)
        && AuditPictures(trace)
          == old(AuditPictures(trace)) + if codeOnPage || secretOnPage then 0 else asked - old(asked)
      ensures old(asked) <= asked <= old(asked) + if o.cells.Some? then o.cells.value else 0
      ensures !(o.cells.Some? && old(actedSinceAudit && !auditFailed && !aborted)) ==>
        && audited == old(audited) && actedSinceAudit == old(actedSinceAudit) && auditFailed == old(auditFailed)
        && asked == old(asked) && trace == old(trace)
    {
      hide CodeIn, SecretsIn, Safe, Attempted, AuditPictures;
      if o.cells.None? || !actedSinceAudit || auditFailed || aborted {
        return;
      }
      actedSinceAudit := false;
      audited := audited + [point];
      if !o.audits {
        auditFailed := true;
        return;
      }
      var made := AuditCells(o.cells.value);
      if !made {
        auditFailed := true;
      }
    }

    /** The cells of one audit, one after another until one cannot be made. */
    method AuditCells(cells: nat) returns (made: bool)
      requires Valid()
      modifies `asked, `aborted, `recorder, `trace
      ensures Valid() && (old(aborted) ==> aborted) && old(trace) <= trace
      ensures old(asked) <= asked <= old(asked) + cells
      ensures forall k :: old(asked) <= k < asked ==> o.page(k).ok == (made || k < asked - 1)
      ensures if made then asked == old(asked) + cells else asked > old(asked)
      ensures AuditPictures(trace)
        == old(AuditPictures(trace)) + if codeOnPage || secretOnPage then 0 else asked - old(asked)
    {
      hide CodeIn, SecretsIn, Safe, Attempted, AuditPictures, Valid;
      for i := 0 to cells
        invariant Valid() && (old(aborted) ==> aborted) && old(trace) <= trace
        invariant asked == old(asked) + i && forall k :: old(asked) <= k < asked ==> o.page(k).ok
        invariant AuditPictures(trace) == old(AuditPictures(trace)) + if codeOnPage || secretOnPage then 0 else i
      {
        made := AuditCell();
        if !made {
          return;
        }
      }
      made := true;
    }

    /** One cell: the page is audited, and pictured where nothing on it must be hidden. */
    method AuditCell() returns (ok: bool)
      requires Valid()
      modifies `asked, `aborted, `recorder, `trace
      ensures Valid() && (old(aborted) ==> aborted) && old(trace) <= trace
      ensures ok == o.page(old(asked)).ok && asked == old(asked) + 1
      ensures AuditPictures(trace)
        == old(AuditPictures(trace)) + if codeOnPage || secretOnPage then 0 else 1
    {
      hide CodeIn, SecretsIn, Safe, Attempted, AuditPictures;
      if !codeOnPage && !secretOnPage {
        OneAuditPictureMore(trace, concealed);
        Start(AuditPicture);
      }
      ghost var pictured := trace;
      var a := Ask();
      FramesAuditNothing(pictured, trace);
      ok := a.ok;
    }

    /**
     What follows an action that went through: a frame of what it came to, and an audit
     where the page has settled.
     */
    method GoOn(index: nat, action: Action)
      requires Valid()
      modifies `asked, `aborted, `recorder, `trace, `actedSinceAudit, `auditFailed, `audited
      ensures Valid() && (old(aborted) ==> aborted)
      ensures old(asked) <= asked <= old(asked) + if o.cells.Some? then o.cells.value else 0
      ensures old(recorder).Live? ==> old(trace) + [Started(Frame, concealed)] <= trace
      ensures var acted := old(actedSinceAudit) || Acted(action);
        if o.cells.Some? && Settled(action) && acted && !old(auditFailed) && !old(aborted)
        then audited == old(audited) + [index] && !actedSinceAudit
        else audited == old(audited) && actedSinceAudit == acted && auditFailed == old(auditFailed)
    {
      hide CodeIn, SecretsIn, Safe, Attempted, AuditPictures;
      Sample();
      if ActsOnPage(action) {
        actedSinceAudit := true;
      }
      if SettlesPage(action) {
        AuditAt(index);
      }
    }

    /**
     What a failing action comes to: a failed check, a second chance that worked, or a
     check that says nothing.
     */
    method AfterFailure(index: nat, action: Action, undecided: bool) returns (outcome: Outcome, goesOn: bool)
      requires Valid() && Marked() && Followed(o, driven)
      requires driven != [] && driven[|driven| - 1].asked == asked && driven[|driven| - 1].result.Threw?
      modifies `asked, `aborted, `recorder, `trace, `codeOnPage, `secretOnPage, `concealed, `driven, `actedSinceAudit,
        `auditFailed, `audited
      ensures Valid() && (old(aborted) ==> aborted)
      ensures outcome.Failed? <==> IsAssertion(action) && !undecided
      ensures goesOn <==> outcome.Passed?
      ensures ChanceTaken(o, index, action, old(asked), old(driven), driven, goesOn)
      ensures Marked() && Followed(o, driven) && (goesOn ==> NextStart(o, driven, asked))
      ensures !goesOn && !aborted && !codeOnPage && !secretOnPage ==> EndsInScreenshot(trace, o.frames)
      ensures outcome.Failed? && !aborted ==>
        asked == old(asked) + (if o.snapshots then 1 else 0) + if codeOnPage || secretOnPage then 0 else 1
      ensures !goesOn ==> audited == old(audited) && auditFailed == old(auditFailed)
      ensures goesOn && !aborted ==>
        var acted := old(actedSinceAudit) || Acted(action);
        if o.cells.Some? && Settled(action) && acted && !old(auditFailed)
        then audited == old(audited) + [index] && !actedSinceAudit
        else audited == old(audited) && actedSinceAudit == acted && auditFailed == old(auditFailed)
    {
      hide Valid, Marked, FramesOnly, ChanceTaken, Followed;
      if IsAssertion(action) && !undecided {
        SnapshotAt();
        Sample();
        var _ := Screenshot();
        AssertionHasNone(o, index, action, old(asked), driven);
        return Failed, false;
      }
      var fixed := RepairLocator(index, action);
      if fixed {
        GoOn(index, action);
        return Passed, true;
      }
      Sample();
      var _ := Screenshot();
      return Unverified, false;
    }

    /** One action, with what follows when it goes through and when it does not. */
    method DriveOne(i: nat) returns (outcome: Outcome, goesOn: bool)
      requires Valid() && Marked() && Followed(o, driven) && NextStart(o, driven, asked)
      requires i < |o.actions| && WentThrough(o, i, driven) && !aborted
      requires AuditsUpTo(o, i, audited, auditFailed)
      requires o.cells.Some? && !auditFailed ==> (actedSinceAudit <==> ActedSince(o.actions, i))
      modifies `asked, `aborted, `recorder, `trace, `codeOnPage, `secretOnPage, `concealed, `driven, `actedSinceAudit,
        `auditFailed, `audited
      ensures Valid() && Marked() && Followed(o, driven)
      ensures goesOn ==> outcome.Passed? && WentThrough(o, i + 1, driven) && NextStart(o, driven, asked)
      ensures goesOn && !aborted ==>
        && AuditsUpTo(o, i + 1, audited, auditFailed)
        && (o.cells.Some? && !auditFailed ==> (actedSinceAudit <==> ActedSince(o.actions, i + 1)))
      ensures !goesOn ==> !outcome.Passed? && (outcome.Failed? ==> AssertionFailed(o, driven))
      ensures !goesOn && !aborted ==>
        && (outcome.Unverified? ==> Stuck(o, driven))
        && (!codeOnPage && !secretOnPage ==> EndsInScreenshot(trace, o.frames))
        && LastIndex(driven) == i && AuditsUpTo(o, i, audited, auditFailed)
    {
      hide WentThrough, AssertionFailed, Stuck, Valid, Marked, Followed, ChanceTaken, ComesTo, AsksOf, AuditsUpTo,
        ActedSince,
        Acted, Settled, EndsInScreenshot, LastIndex;
      var action := o.actions[i];
      ghost var before, audits, failed := driven, audited, auditFailed;
      ActedSinceGoesOn(o.actions, i);
      var r := DriveAction(i, action);
      if r.Done? {
        PlannedGoesThrough(o, i, before, driven);
        outcome, goesOn := Passed, true;
        GoOn(i, action);
      } else {
        if aborted {
          return Unverified, false;
        }
        ghost var first := driven[|driven| - 1];
        outcome, goesOn := AfterFailure(i, action, r.undecided);
        FailureComesTo(o, i, before, first, driven, goesOn);
      }
      if goesOn && !aborted {
        OneActionMore(o, i, audits, failed, audited, auditFailed);
      }
    }

    /** The actions, one after another, until one fails for good or the run is aborted. */
    method DriveAll() returns (outcome: Outcome)
      requires Valid() && Unstarted()
      modifies `asked, `aborted, `recorder, `trace, `codeOnPage, `secretOnPage, `concealed, `driven, `actedSinceAudit,
        `auditFailed, `audited
      ensures Valid() && (old(aborted) ==> aborted && driven == [] && trace == old(trace))
      ensures Marked() && Followed(o, driven) && (outcome.Passed? && !aborted ==> NextStart(o, driven, asked))
      ensures outcome.Passed? && !aborted ==> WentThrough(o, |o.actions|, driven)
      ensures outcome.Failed? ==> AssertionFailed(o, driven)
      ensures outcome.Unverified? && !aborted ==> Stuck(o, driven)
      ensures !aborted && !outcome.Passed? && !codeOnPage && !secretOnPage ==> EndsInScreenshot(trace, o.frames)
      ensures !aborted ==> var i := if outcome.Passed? then |o.actions| else LastIndex(driven);
        && i <= |o.actions| && AuditsUpTo(o, i, audited, auditFailed)
        && (o.cells.Some? && !auditFailed && outcome.Passed? ==> (actedSinceAudit <==> ActedSince(o.actions, i)))
    {
      outcome := Passed;
      NothingWentThrough(o);
      NothingAudited(o);
      assert Marked();
      hide WentThrough, AssertionFailed, Stuck, Valid, Marked, AuditsUpTo, ActedSince, EndsInScreenshot, LastIndex;
      for i := 0 to |o.actions|
        invariant Valid() && outcome.Passed? && WentThrough(o, i, driven)
        invariant Marked() && Followed(o, driven) && NextStart(o, driven, asked)
        invariant old(aborted) ==> aborted && driven == [] && trace == old(trace)
        invariant !aborted ==> AuditsUpTo(o, i, audited, auditFailed)
        invariant !aborted && o.cells.Some? && !auditFailed ==> (actedSinceAudit <==> ActedSince(o.actions, i))
      {
        if aborted {
          return;
        }
        var goesOn;
        outcome, goesOn := DriveOne(i);
        if !goesOn {
          return;
        }
      }
    }

    /** Whether the flow can be driven at all, found out before anything is. */
    method MayRun() returns (may: bool)
      ensures may <==> Runs(o)
    {
      if o.actions == [] || !o.traceStarts {
        return false;
      }
      var typesSecondFactor, typesBackupCode := false, false;
      for i := 0 to |o.actions|
        invariant forall k :: 0 <= k < i ==> !o.actions[k].Unknown?
        invariant typesSecondFactor <==> exists k :: 0 <= k < i && (o.actions[k].Totp? || o.actions[k].BackupCode?)
        invariant typesBackupCode <==> exists k :: 0 <= k < i && o.actions[k].BackupCode?
      {
        if o.actions[i].Unknown? {
          return false;
        }
        typesSecondFactor := typesSecondFactor || TypesCode(o.actions[i]);
        typesBackupCode := typesBackupCode || o.actions[i].BackupCode?;
      }
      return (typesSecondFactor ==> o.totp) && (typesBackupCode ==> o.backupCode);
    }

    /** The end of a flow that passed: the page it ended on is audited, and pictured. */
    method EndPassed()
      requires Valid() && !aborted && AuditsUpTo(o, |o.actions|, audited, auditFailed)
      requires o.cells.Some? && !auditFailed ==> (actedSinceAudit <==> ActedSince(o.actions, |o.actions|))
      modifies `asked, `aborted, `recorder, `trace, `actedSinceAudit, `auditFailed, `audited
      ensures Valid()
      ensures !aborted ==> AuditsToTheEnd(o, audited, auditFailed)
      ensures !aborted && !codeOnPage && !secretOnPage ==> EndsInScreenshot(trace, false)
    {
      hide Valid, FramesOnly, AuditsUpTo, ActedSince, AuditsToTheEnd;
      ghost var audits, failed, due := audited, auditFailed, actedSinceAudit;
      AuditAt(|o.actions|);
      var _ := Screenshot();
      if !aborted {
        AuditedAtTheEnd(o, audits, failed, due, audited, auditFailed);
      }
    }

    /** Drives one flow check. */
    method RunFlowCheck() returns (outcome: Outcome)
      requires Valid() && Unstarted()
      modifies this
      ensures Sound() && Marked() && Followed(o, driven) && (Runs(o) ==> !recorder.Live?)
      ensures old(aborted) || !Runs(o) ==> outcome.Unverified? && driven == [] && trace == old(trace)
      ensures outcome.Passed? ==> Runs(o) && WentThrough(o, |o.actions|, driven)
      ensures outcome.Failed? ==> Runs(o) && AssertionFailed(o, driven)
      ensures outcome.Passed? && driven != [] ==> !AbortedBy(o, driven[|driven| - 1].asked)
      ensures outcome.Failed? ==> !aborted
      ensures Runs(o) && !aborted ==>
        && (outcome.Passed? <==> WentThrough(o, |o.actions|, driven))
        && (outcome.Failed? <==> AssertionFailed(o, driven))
        && (outcome.Unverified? <==> Stuck(o, driven))
      ensures Runs(o) && !aborted && !codeOnPage && !secretOnPage ==>
        EndsInScreenshot(trace, o.frames && !outcome.Passed?)
      ensures Runs(o) && !aborted ==>
        if outcome.Passed? then AuditsToTheEnd(o, audited, auditFailed)
        else LastIndex(driven) <= |o.actions| && AuditsUpTo(o, LastIndex(driven), audited, auditFailed)
    {
      hide FramesOnly, AuditsUpTo, ActedSince, WentThrough, AssertionFailed, Stuck;
      var may := MayRun();
      if !may {
        return Unverified;
      }
      outcome := DriveAll();
      if aborted {
        StopRecorder();
        return Unverified;
      }
      OutcomesExclude(o, driven);
      if outcome.Passed? {
        AbortedOnce(o, driven, asked);
        EndPassed();
      }
      StopRecorder();
    }
  }

  /**
   Whether the flow is driven at all: it has actions, all of known kinds, every second
   factor it types is seeded, and its trace starts.
   */
  predicate Runs(o: Options) {
    && o.actions != []
    && (forall i :: 0 <= i < |o.actions| ==> !o.actions[i].Unknown?)
    && ((exists i :: 0 <= i < |o.actions| && (o.actions[i].Totp? || o.actions[i].BackupCode?)) ==> o.totp)
    && ((exists i :: 0 <= i < |o.actions| && o.actions[i].BackupCode?) ==> o.backupCode)
    && o.traceStarts
  }

  /** Only a screenshot is ever withheld, and no copy is one. */
  lemma {:induction false} WithheldMattersToNone(o: Options, a: Action, n: nat, withheld: bool)
    requires !a.Capture?
    ensures ComesTo(o, a, n, withheld) == ComesTo(o, a, n, false)
  {
  }

  /** The place in the plan of the last action that was put to the page. */
  function LastIndex(driven: seq<Drive>): nat {
    if driven == [] then 0 else driven[|driven| - 1].index
  }

  /** No assertion has a second chance. */
  lemma {:induction false} AssertionHasNone(o: Options, index: nat, a: Action, asked: nat, driven: seq<Drive>)
    requires IsAssertion(a)
    ensures ChanceTaken(o, index, a, asked, driven, driven, false)
  {
  }

  lemma {:induction false} NothingAudited(o: Options)
    ensures AuditsUpTo(o, 0, [], false) && !ActedSince(o.actions, 0)
  {
  }

  lemma {:induction false} NothingWentThrough(o: Options)
    ensures WentThrough(o, 0, [])
  {
  }

  lemma {:induction false} PlannedGoesThrough(o: Options, i: nat, before: seq<Drive>, driven: seq<Drive>)
    requires i < |o.actions| && WentThrough(o, i, before)
    requires driven != [] && driven == before + [driven[|driven| - 1]] && EndsPlanned(o, i, driven)
    requires driven[|driven| - 1].result.Done?
    ensures WentThrough(o, i + 1, driven)
  {
    assert driven[..|driven| - 1] == before;
  }

  /** Where an action that threw leaves what was driven. */
  lemma {:induction false} FailureComesTo(o: Options, i: nat, before: seq<Drive>, first: Drive, driven: seq<Drive>,
      goesOn: bool)
    requires i < |o.actions| && WentThrough(o, i, before)
    requires first.index == i && first.action == o.actions[i] && first.result.Threw?
    requires ChanceTaken(o, i, o.actions[i], first.asked, before + [first], driven, goesOn)
    ensures IsAssertion(o.actions[i]) && !first.result.undecided ==> AssertionFailed(o, driven)
    ensures goesOn ==> WentThrough(o, i + 1, driven)
    ensures !goesOn && !(IsAssertion(o.actions[i]) && !first.result.undecided) ==> Stuck(o, driven)
    ensures LastIndex(driven) == i
  {
    hide ComesTo;
    if SecondChance(o, o.actions[i], first.asked) {
      var again: Drive :| driven == before + [first] + [again] && DrivenAgain(o, i, o.actions[i], first.asked, again)
        && goesOn == again.result.Done?;
      assert driven[..|driven| - 1] == before + [first] && driven[..|driven| - 2] == before;
      assert EndsAgain(o, i, driven);
      assert driven[|driven| - 1].result.Threw? ==> StuckAt(o, i, driven);
    } else {
      assert driven[..|driven| - 1] == before;
      assert EndsPlanned(o, i, driven);
      assert (IsAssertion(o.actions[i]) && !first.result.undecided) || StuckAt(o, i, driven);
    }
  }

  /** Going through, failing an assertion and being stuck are three different ends. */
  lemma {:induction false} OutcomesExclude(o: Options, driven: seq<Drive>)
    requires o.actions != []
    ensures !(WentThrough(o, |o.actions|, driven) && (AssertionFailed(o, driven) || Stuck(o, driven)))
    ensures !(AssertionFailed(o, driven) && Stuck(o, driven))
  {
    hide ComesTo;
  }
}
