/**
 The one path from an executed result to its judged verdict: the judge's own
 reading of both sides, the verifier's second opinion on what was proven, and the
 verdict of what is left.
 */
module JudgeExecuted {
  import opened Prelude
  import opened Judge
  import opened Verifier

  datatype BaseOutcome = BaseProven | BaseFailed | NotCompared

  datatype Ran = Ran(id: Id, outcome: Outcome, reason: string, base: Option<BaseOutcome>)

  datatype Executed = Executed(criteria: seq<Ran>, verdict: RunVerdict, waived: set<Id>)

  /**
   What the verifier has to go by: each criterion's text and saved evidence, the diff,
   and the model with its batch size.
   */
  datatype Options = Options(
    texts: map<Id, string>,
    evidence: map<Id, seq<Path>>,
    diff: string,
    verifier: Option<Runner>,
    size: Result<int, string>)

  function SideResults(ran: seq<Ran>): (r: seq<SideResult>)
    ensures |r| == |ran|
    ensures forall i :: 0 <= i < |ran| ==> r[i].id == ran[i].id && r[i].outcome == ran[i].outcome
    ensures forall i :: 0 <= i < |ran| ==> r[i].detail == match ran[i].outcome
      case Unverified => Some(ran[i].reason)
      case _ => None
  {
    seq(|ran|, i requires 0 <= i < |ran| =>
      SideResult(ran[i].id, ran[i].outcome, if ran[i].outcome.Unverified? then Some(ran[i].reason) else None))
  }

  /** The base's side of the result: an entry for each criterion its checks decided one way or the other. */
  function BaseSideResults(ran: seq<Ran>): seq<SideResult> {
    if ran == [] then []
    else
      var before, last := BaseSideResults(ran[..|ran| - 1]), ran[|ran| - 1];
      if last.base.None? || last.base.value.NotCompared? then before
      else before + [SideResult(last.id, if last.base.value.BaseProven? then Proven else Failed, None)]
  }

  function JudgedFirst(e: Executed): Judged {
    JudgedRun(BaseSideResults(e.criteria), SideResults(e.criteria), e.waived, false)
  }

  // ------------------------------------------------------ what the verifier is given

  const NO_TEXT := "verifier could not check it: the plan has no text for this criterion"

  predicate HasText(texts: map<Id, string>, id: Id) {
    id in texts && !IsBlank(texts[id])
  }

  /** A proven criterion whose text is not known cannot be checked, so it does not stay proven. */
  function Prepared(c: Criterion, texts: map<Id, string>): (d: Criterion)
    ensures Downgraded(c, d) && (d.outcome.Proven? ==> HasText(texts, d.id))
  {
    if c.outcome.Proven? && !HasText(texts, c.id)
    then c.(outcome := Unverified, reason := NO_TEXT)
    else c
  }

  function ClaimOf(id: Id, o: Options): Claim
    requires HasText(o.texts, id)
  {
    Claim(id, o.texts[id], if id in o.evidence then o.evidence[id] else [])
  }

  /** The criteria that are put to the verifier: every one that is proven and can be checked. */
  function ClaimsOf(criteria: seq<Criterion>, o: Options): seq<Claim> {
    if criteria == [] then []
    else
      var before, last := ClaimsOf(criteria[..|criteria| - 1], o), Prepared(criteria[|criteria| - 1], o.texts);
      if last.outcome.Proven? then before + [ClaimOf(last.id, o)] else before
  }

  /** Exactly the proven criteria with a text are asked about, each id always in the same words. */
  lemma {:induction false} ClaimsAreTheProven(criteria: seq<Criterion>, o: Options)
    ensures forall k :: 0 <= k < |ClaimsOf(criteria, o)| ==>
      HasText(o.texts, ClaimsOf(criteria, o)[k].id)
        && ClaimsOf(criteria, o)[k] == ClaimOf(ClaimsOf(criteria, o)[k].id, o)
    ensures forall i :: 0 <= i < |criteria| && criteria[i].outcome.Proven? && HasText(o.texts, criteria[i].id) ==>
      ClaimOf(criteria[i].id, o) in ClaimsOf(criteria, o)
    ensures Agree(ClaimsOf(criteria, o))
  {
    if criteria != [] {
      var n := |criteria| - 1;
      ClaimsAreTheProven(criteria[..n], o);
      assert forall i :: 0 <= i < n ==> criteria[..n][i] == criteria[i];
    }
  }

  // -------------------------------------------------------------------- the judging

  function Final(c: Criterion, claims: seq<Claim>, o: Options, runner: Runner): (d: Criterion)
    ensures Downgraded(c, d)
  {
    Verified(Prepared(c, o.texts), claims, o.size, runner, o.diff)
  }

  function FinalCriteria(e: Executed, o: Options): (r: seq<Criterion>)
    ensures AllDowngraded(JudgedFirst(e).criteria, r)
  {
    var criteria := JudgedFirst(e).criteria;
    if o.verifier.None? || e.verdict.Refused? then criteria
    else
      var claims := ClaimsOf(criteria, o);
      seq(|criteria|, i requires 0 <= i < |criteria| => Final(criteria[i], claims, o, o.verifier.value))
  }

  function FinalVerdict(e: Executed, o: Options): RunVerdict {
    if e.verdict.Refused? then Refused
    else VerdictOf(FinalCriteria(e, o), JudgedFirst(e).regressions != [], e.waived)
  }

  function LastRan(ran: seq<Ran>, id: Id): Option<Ran> {
    if ran == [] then None
    else if ran[|ran| - 1].id == id then Some(ran[|ran| - 1])
    else LastRan(ran[..|ran| - 1], id)
  }

  /** The flag a judged criterion carries: a regression, behaviour that worked at neither side, or none. */
  function FlagOf(e: Executed, regressed: set<Id>, c: Criterion): Option<bool> {
    var before := LastRan(e.criteria, c.id);
    if before.None? || before.value.base.None? then None
    else if c.id in regressed then Some(true)
    else if c.outcome.Failed? && before.value.outcome.Failed? && before.value.base.value.BaseFailed? then Some(false)
    else None
  }

  /** A proven criterion with no text that is not blank is left unverified, saying so; every other is left alone. */
  ghost predicate PreparedTo(c: Criterion, d: Criterion, texts: map<Id, string>) {
    if c.outcome.Proven? && (c.id !in texts || IsBlank(texts[c.id]))
      then d == Criterion(c.id, Unverified, c.regression, NO_TEXT)
    else d == c
  }

  ghost function ProvenPlaces(criteria: seq<Criterion>): set<nat> {
    set i: nat | i < |criteria| && criteria[i].outcome.Proven?
  }

  /** One claim for each proven criterion, in their order, with its text and its evidence. */
  ghost predicate ClaimsAt(criteria: seq<Criterion>, o: Options, claims: seq<Claim>, places: seq<nat>) {
    && InOrder(places, ProvenPlaces(criteria)) && |claims| == |places|
    && forall k :: 0 <= k < |places| ==> places[k] < |criteria| && Puts(criteria[places[k]].id, o, claims[k])
  }

  /** What an id is put to the verifier with. */
  predicate Puts(id: Id, o: Options, claim: Claim) {
    && claim.id == id && id in o.texts && claim.text == o.texts[id] && !IsBlank(claim.text)
    && (id in o.evidence ==> claim.evidence == o.evidence[id])
    && (id !in o.evidence ==> claim.evidence == [])
  }

  method Prepare(criteria: seq<Criterion>, o: Options) returns (prepared: seq<Criterion>, claims: seq<Claim>)
    ensures |prepared| == |criteria| && forall i :: 0 <= i < |criteria| ==>
      prepared[i] == Prepared(criteria[i], o.texts)
    ensures claims == ClaimsOf(criteria, o)
    ensures forall i :: 0 <= i < |criteria| ==> PreparedTo(criteria[i], prepared[i], o.texts)
    ensures exists places :: ClaimsAt(prepared, o, claims, places)
  {
    prepared := seq(|criteria|, i requires 0 <= i < |criteria| => Prepared(criteria[i], o.texts));
    claims := [];
    ghost var places: seq<nat> := [];
    assert ClaimsAt(prepared[..0], o, claims, places);
    for i := 0 to |criteria|
      invariant claims == ClaimsOf(criteria[..i], o)
      invariant ClaimsAt(prepared[..i], o, claims, places)
    {
      assert criteria[..i + 1][..i] == criteria[..i];
      ProvenOneMore(prepared, o, i, claims, places);
      hide ClaimsAt;
      if prepared[i].outcome.Proven? {
        claims := claims + [ClaimOf(prepared[i].id, o)];
        places := places + [i];
      }
    }
    assert criteria[..|criteria|] == criteria && prepared[..|prepared|] == prepared;
  }

  lemma {:induction false} ProvenOneMore(criteria: seq<Criterion>, o: Options, i: nat, claims: seq<Claim>,
      places: seq<nat>)
    requires i < |criteria| && ClaimsAt(criteria[..i], o, claims, places)
    requires criteria[i].outcome.Proven? ==> HasText(o.texts, criteria[i].id)
    ensures if criteria[i].outcome.Proven?
      then ClaimsAt(criteria[..i + 1], o, claims + [ClaimOf(criteria[i].id, o)], places + [i])
      else ClaimsAt(criteria[..i + 1], o, claims, places)
  {
    var before, more := criteria[..i], criteria[..i + 1];
    assert forall j :: 0 <= j < i ==> before[j] == more[j];
    assert ProvenPlaces(more) == ProvenPlaces(before) + if criteria[i].outcome.Proven? then {i} else {};
    assert forall k :: 0 <= k < |places| ==> places[k] in places;
    if criteria[i].outcome.Proven? {
      OnePlaceMore(places, ProvenPlaces(before), i);
    }
    hide HasText;
  }

  method JudgeRanResult(e: Executed, o: Options) returns (criteria: seq<Criterion>, verdict: RunVerdict)
    ensures criteria == FinalCriteria(e, o) && verdict == FinalVerdict(e, o)
  {
    var judged := JudgeRun(BaseSideResults(e.criteria), SideResults(e.criteria), e.waived, false);
    criteria := judged.criteria;
    if o.verifier.Some? && !e.verdict.Refused? {
      var prepared, claims := Prepare(judged.criteria, o);
      criteria := RunVerifier(o.verifier.value, prepared, claims, o.diff, o.size);
    }
    verdict := if e.verdict.Refused? then Refused else VerdictOf(criteria, judged.regressions != [], e.waived);
  }

  lemma {:induction false} FirstVerdict(e: Executed)
    ensures var judged := JudgedFirst(e);
      judged.verdict == VerdictOf(judged.criteria, judged.regressions != [], e.waived)
  {
    hide JudgedCriteria, Regressions, VerdictOf;
  }

  lemma {:induction false} VerdictIsNoRefusal(criteria: seq<Criterion>, regressed: bool, waived: set<Id>)
    ensures !VerdictOf(criteria, regressed, waived).Refused?
  {
  }

  /** Whatever the verifier answers, it never makes a verdict better, and it turns no refusal into anything else. */
  lemma {:induction false} JudgingNeverRaises(e: Executed, o: Options)
    ensures e.verdict.Refused? ==> FinalVerdict(e, o).Refused?
    ensures !e.verdict.Refused? ==>
      !FinalVerdict(e, o).Refused? && Rank(FinalVerdict(e, o)) <= Rank(JudgedFirst(e).verdict)
  {
    hide FinalCriteria, JudgedFirst, VerdictOf, Rank, AllDowngraded;
    FirstVerdict(e);
    VerdictIsNoRefusal(FinalCriteria(e, o), JudgedFirst(e).regressions != [], e.waived);
    DowngradeNeverRaises(JudgedFirst(e).criteria, FinalCriteria(e, o), JudgedFirst(e).regressions != [], e.waived);
  }

  /**
   A judged run passes exactly when it was not refused and everything it judged is
   proven still, there being something.
   */
  lemma {:induction false} PassedIsAllProvenStill(e: Executed, o: Options)
    ensures FinalVerdict(e, o).Passed?
      <==> !e.verdict.Refused? && FinalCriteria(e, o) != [] && AllProven(FinalCriteria(e, o))
  {
    hide FinalCriteria, JudgedFirst, AllProven;
    var before, after := JudgedFirst(e).criteria, FinalCriteria(e, o);
    if JudgedFirst(e).regressions != [] {
      RegressionStaysUnproven(e);
      StaysUnproven(before, after);
    }
    PassedIsProven(after, JudgedFirst(e).regressions != [], e.waived);
  }

  lemma {:induction false} RegressionStaysUnproven(e: Executed)
    requires JudgedFirst(e).regressions != []
    ensures !AllProven(JudgedFirst(e).criteria)
  {
    hide AllProven, JudgedCriteria, Regressions;
    RegressionIsNotProven(BaseSideResults(e.criteria), SideResults(e.criteria), e.waived);
  }

  lemma {:induction false} StaysUnproven(before: seq<Criterion>, after: seq<Criterion>)
    requires AllDowngraded(before, after) && !AllProven(before)
    ensures !AllProven(after)
  {
    var i :| 0 <= i < |before| && !before[i].outcome.Proven?;
    assert Downgraded(before[i], after[i]);
  }

  lemma {:induction false} PassedIsProven(criteria: seq<Criterion>, regressed: bool, waived: set<Id>)
    ensures VerdictOf(criteria, regressed, waived).Passed? <==> !regressed && criteria != [] && AllProven(criteria)
  {
    if AllProven(criteria) && criteria != [] {
      assert criteria[0].outcome.Proven?;
    }
  }

  /**
   What is proven in the end was proven at the head, waived by nobody, and cleared by
   every turn that was asked about it; and each was asked about.
   */
  lemma {:induction false} ProvenWasCleared(e: Executed, o: Options, i: nat)
    requires o.verifier.Some? && !e.verdict.Refused? && o.size.Ok? && o.size.value > 0
    requires i < |FinalCriteria(e, o)| && FinalCriteria(e, o)[i].outcome.Proven?
    ensures i < |e.criteria| && e.criteria[i].outcome.Proven? && e.criteria[i].id !in e.waived
    ensures var claims := ClaimsOf(JudgedFirst(e).criteria, o); var id := e.criteria[i].id;
      HasText(o.texts, id) && id in IdsIn(claims) && AllClear(id, Batches(claims, o.size.value), o.verifier.value, 0)
  {
    var criteria := JudgedFirst(e).criteria;
    var claims, c := ClaimsOf(criteria, o), criteria[i];
    assert FinalCriteria(e, o)[i] == Final(c, claims, o, o.verifier.value);
    ProvenIsProvenAtHead(BaseSideResults(e.criteria), SideResults(e.criteria), e.waived, i);
    var prepared := Prepared(c, o.texts);
    assert prepared == c;
    ClaimsAreTheProven(criteria, o);
    var claim := ClaimOf(c.id, o);
    var k :| 0 <= k < |claims| && claims[k] == claim;
    assert claims[k].id == c.id;
    StaysProvenIffCleared(c, claims, o.size.value, o.verifier.value, 0, o.diff);
  }

  /** With a model that judges each claim on its own, the batch size changes nothing. */
  lemma {:induction false} EveryBatchSizeJudgesAlike(e: Executed, o: Options, other: int, answer: Claim -> seq<Finding>)
    requires o.verifier.Some? && o.size.Ok? && o.size.value > 0 && other > 0
    requires PerClaim(answer) && JudgesEachAlone(o.verifier.value, answer)
    ensures FinalCriteria(e, o.(size := Ok(other))) == FinalCriteria(e, o)
    ensures FinalVerdict(e, o.(size := Ok(other))) == FinalVerdict(e, o)
  {
    var criteria, p := JudgedFirst(e).criteria, o.(size := Ok(other));
    ClaimsIgnoreSize(criteria, o, p);
    var claims := ClaimsOf(criteria, o);
    ClaimsAreTheProven(criteria, o);
    forall i | 0 <= i < |criteria|
      ensures Final(criteria[i], claims, p, o.verifier.value) == Final(criteria[i], claims, o, o.verifier.value)
    {
      var c := Prepared(criteria[i], o.texts);
      if c.outcome.Proven? {
        var claim := ClaimOf(c.id, o);
        OneMoreAgrees(claims, claim);
        BatchSizeDoesNotMatter(c, claims, claim, o.size.value, o.verifier.value, 0, answer, o.diff);
        BatchSizeDoesNotMatter(c, claims, claim, other, o.verifier.value, 0, answer, o.diff);
      } else {
        StaysDown(c, claims, o.size.value, o.verifier.value, 0, o.diff);
        StaysDown(c, claims, other, o.verifier.value, 0, o.diff);
      }
    }
  }

  lemma {:induction false} OneMoreAgrees(claims: seq<Claim>, claim: Claim)
    requires Agree(claims) && claim in claims
    ensures Agree(claims + [claim])
  {
  }

  lemma {:induction false} ClaimsIgnoreSize(criteria: seq<Criterion>, o: Options, p: Options)
    requires p == o.(size := p.size)
    ensures ClaimsOf(criteria, p) == ClaimsOf(criteria, o)
  {
    if criteria != [] {
      ClaimsIgnoreSize(criteria[..|criteria| - 1], o, p);
    }
  }

  // -------------------------------------------------------------------- the flag

  ghost predicate UniqueRan(ran: seq<Ran>) {
    forall i, j :: 0 <= i < j < |ran| ==> ran[i].id != ran[j].id
  }

  function BaseSide(ran: Ran): Option<SideResult> {
    if ran.base.None? || ran.base.value.NotCompared? then None
    else Some(SideResult(ran.id, if ran.base.value.BaseProven? then Proven else Failed, None))
  }

  lemma {:induction false} LastBaseSide(ran: seq<Ran>, id: Id)
    requires ran != []
    ensures var last := ran[|ran| - 1];
      LastOf(BaseSideResults(ran), id)
        == if BaseSide(last).Some? && last.id == id then BaseSide(last)
          else LastOf(BaseSideResults(ran[..|ran| - 1]), id)
  {
    var before, last := BaseSideResults(ran[..|ran| - 1]), BaseSide(ran[|ran| - 1]);
    if last.Some? {
      assert (before + [last.value])[..|before|] == before;
    }
  }

  /** What the base showed of an id: what its last entry that was compared says. */
  function LastCompared(ran: seq<Ran>, id: Id): Option<BaseOutcome> {
    if ran == [] then None
    else if ran[|ran| - 1].id == id && BaseSide(ran[|ran| - 1]).Some? then ran[|ran| - 1].base
    else LastCompared(ran[..|ran| - 1], id)
  }

  lemma {:induction false} BaseSideIsLastCompared(ran: seq<Ran>, id: Id)
    ensures LastOf(BaseSideResults(ran), id).Some? <==> LastCompared(ran, id).Some?
    ensures LastCompared(ran, id).Some? ==>
      (LastOf(BaseSideResults(ran), id).value.outcome.Proven? <==> LastCompared(ran, id).value.BaseProven?)
  {
    hide LastOf, BaseSideResults;
    if ran == [] {
      NothingCompared(id);
    } else {
      LastBaseSide(ran, id);
      BaseSideIsLastCompared(ran[..|ran| - 1], id);
    }
  }

  lemma {:induction false} NothingCompared(id: Id)
    ensures LastOf(BaseSideResults([]), id).None?
  {
  }

  lemma {:induction false} LastRanOfOne(ran: seq<Ran>, i: nat)
    requires UniqueRan(ran) && i < |ran|
    ensures LastRan(ran, ran[i].id) == Some(ran[i])
    ensures LastCompared(ran, ran[i].id) == if BaseSide(ran[i]).Some? then ran[i].base else None
  {
    hide BaseSide;
    var n := |ran| - 1;
    if i < n {
      assert ran[..n][i] == ran[i];
      LastRanOfOne(ran[..n], i);
    } else {
      NeverCompared(ran[..n], ran[n].id);
    }
  }

  lemma {:induction false} NeverCompared(ran: seq<Ran>, id: Id)
    requires forall i :: 0 <= i < |ran| ==> ran[i].id != id
    ensures LastCompared(ran, id).None?
  {
    if ran != [] {
      NeverCompared(ran[..|ran| - 1], id);
    }
  }

  lemma {:induction false} RanIsLast(ran: seq<Ran>, i: nat)
    requires i < |ran|
    ensures LastRan(ran, ran[i].id).Some?
  {
    if i < |ran| - 1 {
      assert ran[..|ran| - 1][i] == ran[i];
      RanIsLast(ran[..|ran| - 1], i);
    }
  }

  /** The executed result has an id proven by the base, failed in some head entry, and compared in its last. */
  ghost predicate RegressedInFact(ran: seq<Ran>, id: Id) {
    && LastRan(ran, id).Some? && LastRan(ran, id).value.base.Some?
    && LastCompared(ran, id) == Some(BaseProven)
    && exists j :: 0 <= j < |ran| && ran[j].id == id && ran[j].outcome.Failed?
  }

  /**
   The regression flag is up exactly on what the executed result shows going from
   proven to failed between the sides, whatever was waived and whatever the verifier answered;
   where each id has one entry, exactly on the entry that says so.
   */
  lemma {:induction false} FlagIsExecutedFact(e: Executed, o: Options, i: nat)
    requires i < |e.criteria|
    ensures i < |FinalCriteria(e, o)| && FinalCriteria(e, o)[i].id == e.criteria[i].id
    ensures FlagOf(e, IdsOf(JudgedFirst(e).regressions), FinalCriteria(e, o)[i]) == Some(true)
      <==> RegressedInFact(e.criteria, e.criteria[i].id)
    ensures UniqueRan(e.criteria) ==>
      (RegressedInFact(e.criteria, e.criteria[i].id) <==>
         e.criteria[i].base == Some(BaseProven) && e.criteria[i].outcome.Failed?)
  {
    hide LastOf, BaseSideResults, LastCompared, LastRan;
    var base, head, id := BaseSideResults(e.criteria), SideResults(e.criteria), e.criteria[i].id;
    FlagIsProvenThenFailed(base, head, e.waived, i);
    RegressedIds(base, head, id);
    BaseSideIsLastCompared(e.criteria, id);
    RanIsLast(e.criteria, i);
    assert Downgraded(JudgedFirst(e).criteria[i], FinalCriteria(e, o)[i]);
    RegressedHere(e.criteria, id);
    if UniqueRan(e.criteria) {
      LastRanOfOne(e.criteria, i);
    }
  }

  /** A side's entry regressed exactly where the executed one failed at the head after the base proved its id. */
  lemma {:induction false} RegressedHere(ran: seq<Ran>, id: Id)
    ensures (exists j ::
      0 <= j < |ran| && SideResults(ran)[j].id == id && Regressed(BaseSideResults(ran), SideResults(ran)[j]))
      <==> LastCompared(ran, id) == Some(BaseProven) && exists j ::
        0 <= j < |ran| && ran[j].id == id && ran[j].outcome.Failed?
  {
    hide LastOf, BaseSideResults, LastCompared;
    BaseSideIsLastCompared(ran, id);
    var head := SideResults(ran);
    if j :| 0 <= j < |ran| && ran[j].id == id && ran[j].outcome.Failed? && LastCompared(ran, id) == Some(BaseProven) {
      assert head[j].id == id && Regressed(BaseSideResults(ran), head[j]);
    }
    if j :| 0 <= j < |ran| && head[j].id == id && Regressed(BaseSideResults(ran), head[j]) {
      assert ran[j].id == id && ran[j].outcome.Failed?;
    }
  }

  /** Entry `j` of what ran is the last that names an id. */
  predicate LastNamed(ran: seq<Ran>, id: Id, j: int) {
    0 <= j < |ran| && ran[j].id == id && forall k :: j < k < |ran| ==> ran[k].id != id
  }

  lemma {:induction false} LastRanIs(ran: seq<Ran>, id: Id)
    ensures forall j :: LastNamed(ran, id, j) ==> LastRan(ran, id) == Some(ran[j])
  {
    if ran != [] {
      var n := |ran| - 1;
      LastRanIs(ran[..n], id);
      forall j | LastNamed(ran, id, j) && j < n ensures LastNamed(ran[..n], id, j) {
      }
    }
  }

  /**
   The flag of a judged criterion that is no regression: down where it failed, was failed
   by its check and by the base's, and none where any of that is not so.
   */
  lemma {:induction false} NoRegressionSays(e: Executed, regressed: set<Id>, c: Criterion, j: nat)
    requires LastNamed(e.criteria, c.id, j) && c.id !in regressed
    ensures FlagOf(e, regressed, c) == Some(false)
      <==> c.outcome.Failed? && e.criteria[j].outcome.Failed? && e.criteria[j].base == Some(BaseFailed)
    ensures FlagOf(e, regressed, c) != Some(true)
  {
    LastRanIs(e.criteria, c.id);
  }
}
