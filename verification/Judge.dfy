/**
 What a run's outcomes come to. The head side decides each criterion, going from
 proven to failed between the sides is a regression, and no waiver, verifier or
 refusal ever makes a verdict better than the outcomes do.
 */
module Judge {
  import opened Prelude

  type Id = string

  datatype Outcome = Proven | Failed | Unverified

  datatype RunVerdict = Passed | Waived | Blocked | Failing | Refused

  datatype SideResult = SideResult(id: Id, outcome: Outcome, detail: Option<string>)

  datatype Regression = Regression(id: Id, baseDetail: Option<string>, headDetail: Option<string>)

  datatype Criterion = Criterion(id: Id, outcome: Outcome, regression: bool, reason: string)

  datatype Judged = Judged(criteria: seq<Criterion>, regressions: seq<Regression>, verdict: RunVerdict)

  // ---------------------------------------------------------------- regressions

  /** What a side says of an id: the last entry that names it. */
  function LastOf(side: seq<SideResult>, id: Id): Option<SideResult> {
    if side == [] then None
    else if side[|side| - 1].id == id then Some(side[|side| - 1])
    else LastOf(side[..|side| - 1], id)
  }

  predicate Regressed(base: seq<SideResult>, head: SideResult) {
    LastOf(base, head.id).Some? && LastOf(base, head.id).value.outcome.Proven? && head.outcome.Failed?
  }

  function RegressionOf(base: seq<SideResult>, head: SideResult): Regression
    requires Regressed(base, head)
  {
    Regression(head.id, LastOf(base, head.id).value.detail, head.detail)
  }

  function Regressions(base: seq<SideResult>, head: seq<SideResult>): seq<Regression> {
    if head == [] then []
    else
      var before, last := Regressions(base, head[..|head| - 1]), head[|head| - 1];
      if Regressed(base, last) then before + [RegressionOf(base, last)] else before
  }

  function IdsOf(regressions: seq<Regression>): set<Id> {
    set i | 0 <= i < |regressions| :: regressions[i].id
  }

  function SideIds(side: seq<SideResult>): set<Id> {
    set i | 0 <= i < |side| :: side[i].id
  }

  lemma {:induction false} IdsOneMore(regressions: seq<Regression>, r: Regression)
    ensures IdsOf(regressions + [r]) == IdsOf(regressions) + {r.id}
  {
    var all := regressions + [r];
    forall id | id in IdsOf(regressions) + {r.id} ensures id in IdsOf(all) {
      if id == r.id {
        assert all[|regressions|] == r;
      } else {
        var i :| 0 <= i < |regressions| && regressions[i].id == id;
        assert all[i] == regressions[i];
      }
    }
  }

  /** The ids that regressed are those of the head entries that did. */
  lemma {:induction false} RegressedIds(base: seq<SideResult>, head: seq<SideResult>, id: Id)
    ensures id in IdsOf(Regressions(base, head))
      <==> exists i :: 0 <= i < |head| && head[i].id == id && Regressed(base, head[i])
  {
    if head != [] {
      var n := |head| - 1;
      var before, last := Regressions(base, head[..n]), head[n];
      RegressedIds(base, head[..n], id);
      if Regressed(base, last) {
        IdsOneMore(before, RegressionOf(base, last));
      }
      if i :| 0 <= i < |head| && head[i].id == id && Regressed(base, head[i]) {
        assert i < n ==> head[..n][i] == head[i];
      }
    }
  }

  method DetectRegressions(base: seq<SideResult>, head: seq<SideResult>) returns (r: seq<Regression>)
    ensures r == Regressions(base, head)
  {
    var baseById: map<Id, SideResult> := map[];
    for i := 0 to |base|
      invariant forall id :: id in baseById <==> LastOf(base[..i], id).Some?
      invariant forall id :: id in baseById ==> LastOf(base[..i], id) == Some(baseById[id])
    {
      assert base[..i + 1][..i] == base[..i];
      baseById := baseById[base[i].id := base[i]];
    }
    assert base[..|base|] == base;
    r := [];
    for i := 0 to |head|
      invariant r == Regressions(base, head[..i])
    {
      assert head[..i + 1][..i] == head[..i];
      var h := head[i];
      if h.id in baseById && baseById[h.id].outcome.Proven? && h.outcome.Failed? {
        r := r + [Regression(h.id, baseById[h.id].detail, h.detail)];
      }
    }
    assert head[..|head|] == head;
  }

  // -------------------------------------------------------------------- verdicts

  const WAIVED := "waived by human"
  const NOT_EXECUTED := "not executed at head"
  const REGRESSED := "proven at base, failed at head"
  const PROVEN := "proven at head"
  const FAILED := "failed at head"
  const UNVERIFIED := "unverified at head"

  predicate AnyFailed(criteria: seq<Criterion>) {
    exists i :: 0 <= i < |criteria| && criteria[i].outcome.Failed?
  }

  predicate AllProven(criteria: seq<Criterion>) {
    forall i :: 0 <= i < |criteria| ==> criteria[i].outcome.Proven?
  }

  function VerdictOf(criteria: seq<Criterion>, regressed: bool, waived: set<Id>): RunVerdict {
    if regressed || AnyFailed(criteria) then Failing
    else if criteria == [] then Blocked
    else if forall i :: 0 <= i < |criteria| ==> !criteria[i].outcome.Unverified? then Passed
    else if forall i :: 0 <= i < |criteria| && criteria[i].outcome.Unverified? ==> criteria[i].id in waived then Waived
    else Blocked
  }

  /** Refusal always wins. */
  function MergeVerdicts(verdicts: seq<RunVerdict>): (r: RunVerdict)
    ensures r == Refused <==> Refused in verdicts
  {
    if Refused in verdicts then Refused
    else if Blocked in verdicts then Blocked
    else if Failing in verdicts then Failing
    else Passed
  }

  function HeadCriterion(head: SideResult, waived: set<Id>, regressed: set<Id>): Criterion {
    if head.id in waived then Criterion(head.id, Unverified, head.id in regressed, WAIVED)
    else if head.id in regressed then Criterion(head.id, Failed, true, DetailOr(head, REGRESSED))
    else
      match head.outcome
      case Proven => Criterion(head.id, Proven, false, DetailOr(head, PROVEN))
      case Failed => Criterion(head.id, Failed, false, DetailOr(head, FAILED))
      case Unverified => Criterion(head.id, Unverified, false, DetailOr(head, UNVERIFIED))
  }

  function DetailOr(side: SideResult, otherwise: string): string {
    if side.detail.Some? then side.detail.value else otherwise
  }

  function HeadCriteria(head: seq<SideResult>, waived: set<Id>, regressed: set<Id>): (c: seq<Criterion>)
    ensures |c| == |head| && forall i :: 0 <= i < |head| ==> c[i] == HeadCriterion(head[i], waived, regressed)
  {
    seq(|head|, i requires 0 <= i < |head| => HeadCriterion(head[i], waived, regressed))
  }

  /** What the base had and the head did not execute. */
  function NotAtHead(base: seq<SideResult>, headIds: set<Id>, waived: set<Id>): (c: seq<Criterion>)
    ensures forall i :: 0 <= i < |c| ==> c[i].outcome.Unverified? && !c[i].regression && c[i].id !in headIds
  {
    if base == [] then []
    else
      var before, last := NotAtHead(base[..|base| - 1], headIds, waived), base[|base| - 1];
      if last.id in headIds then before
      else before + [Criterion(last.id, Unverified, false, if last.id in waived then WAIVED else NOT_EXECUTED)]
  }

  function JudgedCriteria(base: seq<SideResult>, head: seq<SideResult>, waived: set<Id>): seq<Criterion> {
    HeadCriteria(head, waived, IdsOf(Regressions(base, head))) + NotAtHead(base, SideIds(head), waived)
  }

  function JudgedRun(base: seq<SideResult>, head: seq<SideResult>, waived: set<Id>, egressRefused: bool): Judged {
    var criteria, regressions := JudgedCriteria(base, head, waived), Regressions(base, head);
    var derived := VerdictOf(criteria, regressions != [], waived);
    Judged(criteria, regressions, if egressRefused then MergeVerdicts([derived, Refused]) else derived)
  }

  method JudgeHead(head: seq<SideResult>, waived: set<Id>, regressed: set<Id>) returns (criteria: seq<Criterion>)
    ensures criteria == HeadCriteria(head, waived, regressed)
  {
    criteria := [];
    for i := 0 to |head|
      invariant |criteria| == i && forall k :: 0 <= k < i ==> criteria[k] == HeadCriterion(head[k], waived, regressed)
    {
      var isRegressed := head[i].id in regressed;
      if head[i].id in waived {
        criteria := criteria + [Criterion(head[i].id, Unverified, isRegressed, WAIVED)];
      } else if isRegressed {
        criteria := criteria + [Criterion(head[i].id, Failed, true, DetailOr(head[i], REGRESSED))];
      } else {
        match head[i].outcome
        case Proven => criteria := criteria + [Criterion(head[i].id, Proven, false, DetailOr(head[i], PROVEN))];
        case Failed => criteria := criteria + [Criterion(head[i].id, Failed, false, DetailOr(head[i], FAILED))];
        case Unverified =>
          criteria := criteria + [Criterion(head[i].id, Unverified, false, DetailOr(head[i], UNVERIFIED))];
      }
    }
  }

  method JudgeMissing(base: seq<SideResult>, headIds: set<Id>, waived: set<Id>) returns (criteria: seq<Criterion>)
    ensures criteria == NotAtHead(base, headIds, waived)
  {
    criteria := [];
    for i := 0 to |base|
      invariant criteria == NotAtHead(base[..i], headIds, waived)
    {
      assert base[..i + 1][..i] == base[..i];
      if base[i].id !in headIds {
        criteria := criteria + [Criterion(base[i].id, Unverified, false, if base[i].id in waived then WAIVED
          else NOT_EXECUTED)];
      }
    }
    assert base[..|base|] == base;
  }

  // ------------------------------------------------------------------ properties

  /** The verdicts in order; a refusal stands outside it. */
  function Rank(v: RunVerdict): nat {
    match v
    case Refused => 0
    case Failing => 0
    case Blocked => 1
    case Waived => 2
    case Passed => 3
  }

  /** An outcome taken down or left: proven to anything, unverified to failed. */
  predicate Downgraded(c: Criterion, d: Criterion) {
    && d.id == c.id && d.regression == c.regression
    && (d.outcome == c.outcome || c.outcome.Proven? || (c.outcome.Unverified? && d.outcome.Failed?))
  }

  predicate AllDowngraded(cs: seq<Criterion>, ds: seq<Criterion>) {
    |ds| == |cs| && forall i :: 0 <= i < |cs| ==> Downgraded(cs[i], ds[i])
  }

  /** Taking any outcomes down never raises the verdict. */
  lemma {:induction false} DowngradeNeverRaises(cs: seq<Criterion>, ds: seq<Criterion>, regressed: bool,
      waived: set<Id>)
    requires AllDowngraded(cs, ds)
    ensures Rank(VerdictOf(ds, regressed, waived)) <= Rank(VerdictOf(cs, regressed, waived))
  {
    if AnyFailed(cs) {
      var i :| 0 <= i < |cs| && cs[i].outcome.Failed?;
      assert Downgraded(cs[i], ds[i]);
    } else if VerdictOf(cs, regressed, waived).Blocked? && cs != [] {
      var i :| 0 <= i < |cs| && cs[i].outcome.Unverified? && cs[i].id !in waived;
      assert Downgraded(cs[i], ds[i]);
    } else if VerdictOf(cs, regressed, waived).Waived? {
      var i :| 0 <= i < |cs| && cs[i].outcome.Unverified?;
      assert Downgraded(cs[i], ds[i]);
    }
  }

  /** A regression shows in the criteria: each is one that is not proven. */
  lemma {:induction false} RegressionIsNotProven(base: seq<SideResult>, head: seq<SideResult>, waived: set<Id>)
    requires Regressions(base, head) != []
    ensures !AllProven(JudgedCriteria(base, head, waived))
  {
    var regressions, criteria := Regressions(base, head), JudgedCriteria(base, head, waived);
    assert regressions[0].id in IdsOf(regressions);
    RegressedIds(base, head, regressions[0].id);
    var i :| 0 <= i < |head| && head[i].id == regressions[0].id && Regressed(base, head[i]);
    assert !criteria[i].outcome.Proven?;
  }

  /**
   A run passes exactly when it was not refused, judged something, and proved all it
   judged, whatever was waived and whatever regressed.
   */
  lemma {:induction false} PassedIsAllProven(base: seq<SideResult>, head: seq<SideResult>, waived: set<Id>,
      egressRefused: bool)
    ensures var r := JudgedRun(base, head, waived, egressRefused);
      r.verdict.Passed? <==> !egressRefused && r.criteria != [] && AllProven(r.criteria)
  {
    var criteria := JudgedCriteria(base, head, waived);
    if Regressions(base, head) != [] {
      RegressionIsNotProven(base, head, waived);
    }
    if criteria != [] && AllProven(criteria) {
      assert criteria[0].outcome.Proven?;
    }
  }

  /** Each id once. */
  ghost predicate Unique(side: seq<SideResult>) {
    forall i, j :: 0 <= i < j < |side| ==> side[i].id != side[j].id
  }

  /**
   The flag is up exactly where the base has the id proven and the head has it failed,
   waived or not: in some entry of the id where the head names it more than once.
   */
  lemma {:induction false} FlagIsProvenThenFailed(base: seq<SideResult>, head: seq<SideResult>, waived: set<Id>, i: nat)
    requires i < |head|
    ensures JudgedCriteria(base, head, waived)[i].id == head[i].id
    ensures JudgedCriteria(base, head, waived)[i].regression
      <==> exists j :: 0 <= j < |head| && head[j].id == head[i].id && Regressed(base, head[j])
    ensures Unique(head) ==> (JudgedCriteria(base, head, waived)[i].regression <==> Regressed(base, head[i]))
  {
    RegressedIds(base, head, head[i].id);
    assert JudgedCriteria(base, head, waived)[i] == HeadCriterion(head[i], waived, IdsOf(Regressions(base, head)));
  }

  lemma {:induction false} NotAtHeadIsUnverified(base: seq<SideResult>, head: seq<SideResult>, waived: set<Id>, i: nat)
    requires |head| <= i < |JudgedCriteria(base, head, waived)|
    ensures JudgedCriteria(base, head, waived)[i].outcome.Unverified?
  {
    assert JudgedCriteria(base, head, waived)[i] == NotAtHead(base, SideIds(head), waived)[i - |head|];
  }

  /**
   Where a judged proof comes from: what was waived is never proven, and what the head
   did not prove is never proven.
   */
  lemma {:induction false} ProvenIsProvenAtHead(base: seq<SideResult>, head: seq<SideResult>, waived: set<Id>, i: nat)
    requires i < |JudgedCriteria(base, head, waived)| && JudgedCriteria(base, head, waived)[i].outcome.Proven?
    ensures i < |head| && head[i].outcome.Proven? && head[i].id !in waived
      && head[i].id !in IdsOf(Regressions(base, head))
  {
    if i >= |head| {
      NotAtHeadIsUnverified(base, head, waived, i);
    } else {
      assert JudgedCriteria(base, head, waived)[i] == HeadCriterion(head[i], waived, IdsOf(Regressions(base, head)));
    }
  }

  // -------------------------------------------------- what the two sides come to

  /** Entry `j` is the last of the base that names an id. */
  predicate LastNames(base: seq<SideResult>, id: Id, j: int) {
    0 <= j < |base| && base[j].id == id && forall k :: j < k < |base| ==> base[k].id != id
  }

  /** The base proved an id: the last of its entries that names it is proven. */
  ghost predicate ProvenAtBase(base: seq<SideResult>, id: Id) {
    exists j :: LastNames(base, id, j) && base[j].outcome.Proven?
  }

  /** The head's entries that failed where the base had proven. */
  ghost function Lost(base: seq<SideResult>, head: seq<SideResult>): set<nat> {
    set i: nat | i < |head| && head[i].outcome.Failed? && ProvenAtBase(base, head[i].id)
  }

  /** The base's entries whose ids no entry of the head has. */
  ghost function NotExecuted(base: seq<SideResult>, head: seq<SideResult>): set<nat> {
    set j: nat | j < |base| && forall i :: 0 <= i < |head| ==> head[i].id != base[j].id
  }

  /** What a regression says: the head entry it is for, and the base's last word on it. */
  ghost predicate Reports(r: Regression, base: seq<SideResult>, h: SideResult) {
    && r.id == h.id && r.headDetail == h.detail
    && exists j :: LastNames(base, h.id, j) && base[j].outcome.Proven? && r.baseDetail == base[j].detail
  }

  ghost predicate LostAt(base: seq<SideResult>, head: seq<SideResult>, regressions: seq<Regression>, places: seq<nat>) {
    && InOrder(places, Lost(base, head)) && |regressions| == |places|
    && forall k :: 0 <= k < |places| ==> places[k] < |head| && Reports(regressions[k], base, head[places[k]])
  }

  /** One regression for each entry lost, in the head's order. */
  ghost predicate OneForEachLost(base: seq<SideResult>, head: seq<SideResult>, regressions: seq<Regression>) {
    exists places :: LostAt(base, head, regressions, places)
  }

  /** The reason a head entry gives for itself when it has no detail. */
  function Told(outcome: Outcome): string {
    match outcome
    case Proven => PROVEN
    case Failed => FAILED
    case Unverified => UNVERIFIED
  }

  /** Some entry of the head was lost under this id. */
  ghost predicate IsLost(base: seq<SideResult>, head: seq<SideResult>, id: Id) {
    exists j :: 0 <= j < |head| && j in Lost(base, head) && head[j].id == id
  }

  /** What an entry of the head is judged to be, in terms of the two sides and the waivers alone. */
  ghost predicate JudgedTo(base: seq<SideResult>, head: seq<SideResult>, waived: set<Id>, h: SideResult, c: Criterion) {
    && c.id == h.id
    && (c.regression <==> IsLost(base, head, h.id))
    && (h.id in waived ==> c.outcome.Unverified? && c.reason == WAIVED)
    && (h.id !in waived ==>
      && c.outcome == (if c.regression then Failed else h.outcome)
      && c.reason == if h.detail.Some? then h.detail.value else if c.regression then REGRESSED else Told(h.outcome))
  }

  function Unexecuted(id: Id, waived: set<Id>): Criterion {
    Criterion(id, Unverified, false, if id in waived then WAIVED else NOT_EXECUTED)
  }

  ghost predicate RestAt(base: seq<SideResult>, head: seq<SideResult>, waived: set<Id>, rest: seq<Criterion>,
      places: seq<nat>)
  {
    && InOrder(places, NotExecuted(base, head)) && |rest| == |places|
    && forall k :: 0 <= k < |places| ==> places[k] < |base| && rest[k] == Unexecuted(base[places[k]].id, waived)
  }

  /**
   The head's entries judged one by one, and after them one unverified criterion for each
   entry of the base that the head did not execute, in the base's order, waived or not.
   */
  ghost predicate JudgesBoth(base: seq<SideResult>, head: seq<SideResult>, waived: set<Id>, criteria: seq<Criterion>) {
    && |head| <= |criteria|
    && (forall i :: 0 <= i < |head| ==> JudgedTo(base, head, waived, head[i], criteria[i]))
    && exists places :: RestAt(base, head, waived, criteria[|head|..], places)
  }

  /** Something failed that nobody waived, or failed where the base had proven, waived or not. */
  ghost predicate SomethingFailed(base: seq<SideResult>, head: seq<SideResult>, waived: set<Id>) {
    exists i :: 0 <= i < |head| && head[i].outcome.Failed?
      && (head[i].id !in waived || ProvenAtBase(base, head[i].id))
  }

  ghost predicate EverythingProven(base: seq<SideResult>, head: seq<SideResult>, waived: set<Id>) {
    && head != [] && NotExecuted(base, head) == {}
    && forall i :: 0 <= i < |head| ==> head[i].outcome.Proven? && head[i].id !in waived
  }

  ghost predicate TheRestIsWaived(base: seq<SideResult>, head: seq<SideResult>, waived: set<Id>) {
    && (head != [] || base != [])
    && (forall i :: 0 <= i < |head| ==> head[i].outcome.Proven? || head[i].id in waived)
    && forall j :: j in NotExecuted(base, head) ==> base[j].id in waived
  }

  /** What two sides come to, with no word of the criteria in between. */
  ghost function VerdictOn(base: seq<SideResult>, head: seq<SideResult>, waived: set<Id>, egressRefused: bool)
    : RunVerdict
  {
    if egressRefused then Refused
    else if SomethingFailed(base, head, waived) then Failing
    else if EverythingProven(base, head, waived) then Passed
    else if TheRestIsWaived(base, head, waived) then Waived
    else Blocked
  }

  lemma {:induction false} LastIsNamed(base: seq<SideResult>, id: Id)
    ensures LastOf(base, id).None? ==> forall j :: 0 <= j < |base| ==> base[j].id != id
    ensures LastOf(base, id).Some? ==> exists j :: LastNames(base, id, j) && base[j] == LastOf(base, id).value
  {
    if base != [] {
      var n := |base| - 1;
      if base[n].id == id {
        assert LastNames(base, id, n);
      } else {
        LastIsNamed(base[..n], id);
        assert forall j :: 0 <= j < n ==> base[..n][j] == base[j];
        if j :| LastNames(base[..n], id, j) && base[..n][j] == LastOf(base[..n], id).value {
          assert LastNames(base, id, j);
        }
      }
    }
  }

  lemma {:induction false} LastIsProven(base: seq<SideResult>, id: Id)
    ensures LastOf(base, id).Some? && LastOf(base, id).value.outcome.Proven? <==> ProvenAtBase(base, id)
  {
    LastIsNamed(base, id);
  }

  lemma {:induction false} LostOneMore(base: seq<SideResult>, head: seq<SideResult>)
    requires head != []
    ensures var n := |head| - 1;
      Lost(base, head) == Lost(base, head[..n]) + if Regressed(base, head[n]) then {n} else {}
  {
    var n := |head| - 1;
    assert forall i :: 0 <= i < n ==> head[..n][i] == head[i];
    LastIsProven(base, head[n].id);
  }

  lemma {:induction false} RegressionReports(base: seq<SideResult>, h: SideResult)
    requires Regressed(base, h)
    ensures Reports(RegressionOf(base, h), base, h)
  {
    LastIsNamed(base, h.id);
  }

  lemma {:induction false} LostAtOneMore(base: seq<SideResult>, head: seq<SideResult>, regressions: seq<Regression>,
      places: seq<nat>)
    requires head != [] && LostAt(base, head[..|head| - 1], regressions, places)
    ensures var n := |head| - 1;
      if Regressed(base, head[n]) then LostAt(base, head, regressions + [RegressionOf(base, head[n])], places + [n])
      else LostAt(base, head, regressions, places)
  {
    var n := |head| - 1;
    LostOneMore(base, head);
    assert forall j :: j in Lost(base, head[..n]) ==> j < n;
    if Regressed(base, head[n]) {
      RegressionReports(base, head[n]);
      OnePlaceMore(places, Lost(base, head[..n]), n);
    }
    hide Lost, Regressed, RegressionOf, Reports;
    assert forall k :: 0 <= k < |places| ==> places[k] in places;
  }

  lemma {:induction false} RegressionsAreTheLost(base: seq<SideResult>, head: seq<SideResult>)
    ensures OneForEachLost(base, head, Regressions(base, head))
  {
    if head == [] {
      assert LostAt(base, head, [], []);
    } else {
      hide LostAt, Regressed;
      var n := |head| - 1;
      RegressionsAreTheLost(base, head[..n]);
      var places :| LostAt(base, head[..n], Regressions(base, head[..n]), places);
      LostAtOneMore(base, head, Regressions(base, head[..n]), places);
    }
  }

  lemma {:induction false} LostIds(base: seq<SideResult>, head: seq<SideResult>, id: Id)
    ensures id in IdsOf(Regressions(base, head)) <==> IsLost(base, head, id)
  {
    RegressedIds(base, head, id);
    LastIsProven(base, id);
    if i :| 0 <= i < |head| && head[i].id == id && Regressed(base, head[i]) {
      assert i in Lost(base, head);
    }
    if j :| 0 <= j < |head| && j in Lost(base, head) && head[j].id == id {
      assert Regressed(base, head[j]);
    }
  }

  lemma {:induction false} NotExecutedOneMore(base: seq<SideResult>, head: seq<SideResult>)
    requires base != []
    ensures var n := |base| - 1;
      NotExecuted(base, head) == NotExecuted(base[..n], head) + if base[n].id in SideIds(head) then {} else {n}
  {
  }

  lemma {:induction false} RestOneMore(base: seq<SideResult>, head: seq<SideResult>, waived: set<Id>,
      rest: seq<Criterion>, places: seq<nat>)
    requires base != [] && RestAt(base[..|base| - 1], head, waived, rest, places)
    ensures var n := |base| - 1;
      if base[n].id in SideIds(head) then RestAt(base, head, waived, rest, places)
      else RestAt(base, head, waived, rest + [Unexecuted(base[n].id, waived)], places + [n])
  {
    var n := |base| - 1;
    NotExecutedOneMore(base, head);
    assert forall j :: j in NotExecuted(base[..n], head) ==> j < n;
    hide NotExecuted, SideIds;
    assert forall k :: 0 <= k < |places| ==> places[k] in places;
    if base[n].id !in SideIds(head) {
      OnePlaceMore(places, NotExecuted(base[..n], head), n);
    }
  }

  lemma {:induction false} RestIsWhatWasNotExecuted(base: seq<SideResult>, head: seq<SideResult>, waived: set<Id>)
    ensures exists places :: RestAt(base, head, waived, NotAtHead(base, SideIds(head), waived), places)
  {
    var rest := NotAtHead(base, SideIds(head), waived);
    if base == [] {
      assert RestAt(base, head, waived, rest, []);
    } else {
      hide RestAt, SideIds;
      var n := |base| - 1;
      RestIsWhatWasNotExecuted(base[..n], head, waived);
      var before := NotAtHead(base[..n], SideIds(head), waived);
      var places :| RestAt(base[..n], head, waived, before, places);
      RestOneMore(base, head, waived, before, places);
    }
  }

  /** The criteria are what the two sides and the waivers make them. */
  lemma {:induction false} BothSidesAreJudged(base: seq<SideResult>, head: seq<SideResult>, waived: set<Id>)
    ensures JudgesBoth(base, head, waived, JudgedCriteria(base, head, waived))
  {
    hide Regressions, IsLost, IdsOf, NotAtHead, RestAt;
    var criteria := JudgedCriteria(base, head, waived);
    RestIsWhatWasNotExecuted(base, head, waived);
    assert criteria[|head|..] == NotAtHead(base, SideIds(head), waived);
    forall i | 0 <= i < |head| ensures JudgedTo(base, head, waived, head[i], criteria[i]) {
      LostIds(base, head, head[i].id);
    }
  }

  lemma {:induction false} AnyLost(base: seq<SideResult>, head: seq<SideResult>, regressions: seq<Regression>)
    requires OneForEachLost(base, head, regressions)
    ensures regressions != [] <==> exists i ::
      0 <= i < |head| && head[i].outcome.Failed? && ProvenAtBase(base, head[i].id)
  {
    hide ProvenAtBase, Reports;
    var places :| LostAt(base, head, regressions, places);
    if regressions != [] {
      assert places[0] in places;
    }
    if i :| 0 <= i < |head| && head[i].outcome.Failed? && ProvenAtBase(base, head[i].id) {
      assert i in places;
    }
  }

  ghost predicate NotExecutedId(base: seq<SideResult>, head: seq<SideResult>, id: Id) {
    exists j :: j in NotExecuted(base, head) && base[j].id == id
  }

  predicate Leaves(rest: seq<Criterion>, id: Id) {
    exists c :: 0 <= c < |rest| && rest[c].id == id && rest[c].outcome.Unverified?
  }

  /** The criteria past the head's are those of what was not executed, and of all of it. */
  lemma {:induction false} RestSays(base: seq<SideResult>, head: seq<SideResult>, waived: set<Id>, rest: seq<Criterion>)
    requires exists places :: RestAt(base, head, waived, rest, places)
    ensures forall c :: 0 <= c < |rest| ==> rest[c].outcome.Unverified? && NotExecutedId(base, head, rest[c].id)
    ensures forall j :: j in NotExecuted(base, head) ==> Leaves(rest, base[j].id)
  {
    hide NotExecuted;
    var places :| RestAt(base, head, waived, rest, places);
    forall c | 0 <= c < |rest| ensures rest[c].outcome.Unverified? && NotExecutedId(base, head, rest[c].id) {
      assert places[c] in places && rest[c] == Unexecuted(base[places[c]].id, waived);
    }
    forall j | j in NotExecuted(base, head) ensures Leaves(rest, base[j].id) {
      var c :| 0 <= c < |places| && places[c] == j;
      assert rest[c] == Unexecuted(base[j].id, waived);
    }
  }

  lemma {:induction false} AnyFailedAtHead(base: seq<SideResult>, head: seq<SideResult>, waived: set<Id>,
      criteria: seq<Criterion>)
    requires JudgesBoth(base, head, waived, criteria)
    ensures AnyFailed(criteria) ==> SomethingFailed(base, head, waived)
    ensures forall i :: 0 <= i < |head| && head[i].outcome.Failed? && head[i].id !in waived ==> AnyFailed(criteria)
  {
    hide ProvenAtBase, RestAt;
    RestSays(base, head, waived, criteria[|head|..]);
    if AnyFailed(criteria) {
      var i :| 0 <= i < |criteria| && criteria[i].outcome.Failed?;
      assert criteria == criteria[..|head|] + criteria[|head|..];
      assert JudgedTo(base, head, waived, head[i], criteria[i]);
    }
    forall i | 0 <= i < |head| && head[i].outcome.Failed? && head[i].id !in waived ensures AnyFailed(criteria) {
      assert JudgedTo(base, head, waived, head[i], criteria[i]) && criteria[i].outcome.Failed?;
    }
  }

  /** What an entry of the head left unverified where nothing failed. */
  lemma {:induction false} UnfailedIsJudgedTo(base: seq<SideResult>, head: seq<SideResult>, waived: set<Id>,
      criteria: seq<Criterion>, i: nat)
    requires i < |head| && JudgesBoth(base, head, waived, criteria) && !SomethingFailed(base, head, waived)
    ensures criteria[i].outcome.Unverified? <==> head[i].id in waived || !head[i].outcome.Proven?
    ensures criteria[i].id == head[i].id
  {
    hide ProvenAtBase, RestAt;
    assert JudgedTo(base, head, waived, head[i], criteria[i]);
  }

  predicate NoneUnverified(criteria: seq<Criterion>) {
    forall i :: 0 <= i < |criteria| ==> !criteria[i].outcome.Unverified?
  }

  predicate UnverifiedAreWaived(criteria: seq<Criterion>, waived: set<Id>) {
    forall i :: 0 <= i < |criteria| && criteria[i].outcome.Unverified? ==> criteria[i].id in waived
  }

  lemma {:induction false} HeadAndRest(atHead: seq<Criterion>, rest: seq<Criterion>, waived: set<Id>)
    ensures NoneUnverified(atHead + rest) <==> NoneUnverified(atHead) && NoneUnverified(rest)
    ensures UnverifiedAreWaived(atHead + rest, waived)
      <==> UnverifiedAreWaived(atHead, waived) && UnverifiedAreWaived(rest, waived)
  {
    var all := atHead + rest;
    assert forall i :: 0 <= i < |atHead| ==> all[i] == atHead[i];
    assert forall c :: 0 <= c < |rest| ==> all[|atHead| + c] == rest[c];
  }

  lemma {:induction false} RestIsWaivedWhere(base: seq<SideResult>, head: seq<SideResult>, waived: set<Id>,
      rest: seq<Criterion>)
    requires exists places :: RestAt(base, head, waived, rest, places)
    ensures NoneUnverified(rest) <==> NotExecuted(base, head) == {}
    ensures rest == [] <==> NotExecuted(base, head) == {}
    ensures UnverifiedAreWaived(rest, waived) <==> forall j :: j in NotExecuted(base, head) ==> base[j].id in waived
  {
    RestSays(base, head, waived, rest);
    hide NotExecuted, RestAt;
    if j :| j in NotExecuted(base, head) {
      assert Leaves(rest, base[j].id);
    }
    if rest != [] {
      assert rest[0].outcome.Unverified? && NotExecutedId(base, head, rest[0].id);
    }
    if UnverifiedAreWaived(rest, waived) {
      forall j | j in NotExecuted(base, head) ensures base[j].id in waived {
        assert Leaves(rest, base[j].id);
      }
    }
  }

  /** What the head's entries leave unverified where nothing failed. */
  lemma {:induction false} HeadIsWaivedWhere(base: seq<SideResult>, head: seq<SideResult>, waived: set<Id>,
      criteria: seq<Criterion>)
    requires JudgesBoth(base, head, waived, criteria) && !SomethingFailed(base, head, waived)
    ensures NoneUnverified(criteria[..|head|])
      <==> forall i :: 0 <= i < |head| ==> head[i].outcome.Proven? && head[i].id !in waived
    ensures UnverifiedAreWaived(criteria[..|head|], waived)
      <==> forall i :: 0 <= i < |head| ==> head[i].outcome.Proven? || head[i].id in waived
  {
    forall i | 0 <= i < |head|
      ensures criteria[..|head|][i].outcome.Unverified? <==> head[i].id in waived || !head[i].outcome.Proven?
      ensures criteria[..|head|][i].id == head[i].id
    {
      UnfailedIsJudgedTo(base, head, waived, criteria, i);
    }
    hide JudgesBoth, SomethingFailed;
  }

  /** Where nothing failed, what is left unverified is what was waived, left unproven or not executed. */
  lemma {:induction false} UnverifiedAreTheRest(base: seq<SideResult>, head: seq<SideResult>, waived: set<Id>,
      criteria: seq<Criterion>)
    requires JudgesBoth(base, head, waived, criteria) && !SomethingFailed(base, head, waived)
    ensures criteria == [] <==> head == [] && base == []
    ensures criteria != [] && NoneUnverified(criteria) <==> EverythingProven(base, head, waived)
    ensures criteria != [] && UnverifiedAreWaived(criteria, waived) <==> TheRestIsWaived(base, head, waived)
  {
    var atHead, rest := criteria[..|head|], criteria[|head|..];
    assert |criteria| == |head| + |rest| && criteria == atHead + rest;
    HeadAndRest(atHead, rest, waived);
    HeadIsWaivedWhere(base, head, waived, criteria);
    RestIsWaivedWhere(base, head, waived, rest);
    WithoutHead(base, head);
    hide NoneUnverified, UnverifiedAreWaived, JudgesBoth, SomethingFailed, NotExecuted;
  }

  lemma {:induction false} WithoutHead(base: seq<SideResult>, head: seq<SideResult>)
    ensures base == [] ==> NotExecuted(base, head) == {}
    ensures head == [] && base != [] ==> 0 in NotExecuted(base, head)
  {
  }

  lemma {:induction false} VerdictFollows(base: seq<SideResult>, head: seq<SideResult>, waived: set<Id>,
      egressRefused: bool)
    ensures JudgedRun(base, head, waived, egressRefused).verdict == VerdictOn(base, head, waived, egressRefused)
  {
    var criteria := JudgedCriteria(base, head, waived);
    BothSidesAreJudged(base, head, waived);
    RegressionsAreTheLost(base, head);
    AnyLost(base, head, Regressions(base, head));
    AnyFailedAtHead(base, head, waived, criteria);
    hide JudgedCriteria, JudgesBoth, OneForEachLost, Regressions, ProvenAtBase, EverythingProven, TheRestIsWaived,
      AnyFailed;
    if !SomethingFailed(base, head, waived) {
      UnverifiedAreTheRest(base, head, waived, criteria);
    }
  }

  method JudgeRun(base: seq<SideResult>, head: seq<SideResult>, waived: set<Id>, egressRefused: bool)
      returns (r: Judged)
    ensures r == JudgedRun(base, head, waived, egressRefused)
    ensures OneForEachLost(base, head, r.regressions)
    ensures JudgesBoth(base, head, waived, r.criteria)
    ensures r.verdict == VerdictOn(base, head, waived, egressRefused)
  {
    var regressions := DetectRegressions(base, head);
    var atHead := JudgeHead(head, waived, IdsOf(regressions));
    var missing := JudgeMissing(base, SideIds(head), waived);
    var criteria := atHead + missing;
    var derived := VerdictOf(criteria, regressions != [], waived);
    r := Judged(criteria, regressions, if egressRefused then MergeVerdicts([derived, Refused]) else derived);
    RegressionsAreTheLost(base, head);
    BothSidesAreJudged(base, head, waived);
    VerdictFollows(base, head, waived, egressRefused);
  }

  /** A run that lost a criterion the base had never passes, whatever else it proved. */
  lemma {:induction false} LosingACriterionNeverPasses(base: seq<SideResult>, head: seq<SideResult>, waived: set<Id>,
      egressRefused: bool, j: nat)
    requires j < |base| && forall i :: 0 <= i < |head| ==> head[i].id != base[j].id
    ensures var r := JudgedRun(base, head, waived, egressRefused);
      && !r.verdict.Passed?
      && exists c :: |head| <= c < |r.criteria| && r.criteria[c].id == base[j].id && r.criteria[c].outcome.Unverified?
  {
    VerdictFollows(base, head, waived, egressRefused);
    BothSidesAreJudged(base, head, waived);
    hide JudgedCriteria, VerdictOf, RestAt;
    var rest := JudgedCriteria(base, head, waived)[|head|..];
    assert j in NotExecuted(base, head);
    RestSays(base, head, waived, rest);
    var c :| 0 <= c < |rest| && rest[c].id == base[j].id && rest[c].outcome.Unverified?;
    assert JudgedCriteria(base, head, waived)[|head| + c] == rest[c];
  }
}
