/**
 The second opinion on a run: the proven criteria are put to a model in batches,
 and whatever comes of each turn can take a criterion down and do nothing else. A
 turn that fails in any way takes down the criteria of its batch and no others.
 */
module Verifier {
  import opened Prelude
  import opened Judge

  type Path = string

  datatype Claim = Claim(id: Id, text: string, evidence: seq<Path>)

  datatype Kind = Unexercised | Contradicted

  datatype Finding = Finding(id: Id, problem: string, kind: Option<Kind>, evidence: Option<string>)

  /**
   What becomes of one turn: the runner threw, the run stopped short, its answer could
   not be read, or it is a list of findings.
   */
  datatype Turn = Unanswered(why: string) | Answered(findings: seq<Finding>)

  /** A model: any answer to any batch, which may depend on when it is asked. */
  type Runner = (nat, seq<Claim>) -> Turn

  /** What the run handed the verifier, and so what a finding may cite. */
  datatype Trusted = Trusted(claims: seq<Claim>, diff: string)

  const BAD_SIZE := "the verifier batch size is not a whole number of criteria above zero"

  // ------------------------------------------------------------- one turn's answer

  /** White space as ECMAScript has it: its line ends, the byte order mark, and Unicode's own. */
  predicate IsSpace(c: char) {
    var n := c as int;
    || 9 <= n <= 13 || n == 0x20 || n == 0xa0 || n == 0x1680 || 0x2000 <= n <= 0x200a
    || n == 0x2028 || n == 0x2029 || n == 0x202f || n == 0x205f || n == 0x3000 || n == 0xfeff
  }

  predicate IsBlank(text: string) {
    forall i :: 0 <= i < |text| ==> IsSpace(text[i])
  }

  /** A text with nothing but white space taken off its ends. */
  ghost predicate Bares(text: string, t: string) {
    exists before: string, after: string :: IsBlank(before) && IsBlank(after) && text == before + t + after
  }

  function Trim(text: string): (t: string)
    ensures t != "" ==> !IsSpace(t[0]) && !IsSpace(t[|t| - 1])
    ensures t == "" <==> IsBlank(text)
  {
    if text != "" && IsSpace(text[0]) then Trim(text[1..])
    else if text != "" && IsSpace(text[|text| - 1]) then Trim(text[..|text| - 1])
    else text
  }

  function FirstFinding(findings: seq<Finding>, id: Id): Option<Finding> {
    if findings == [] then None
    else if FirstFinding(findings[..|findings| - 1], id).Some? then FirstFinding(findings[..|findings| - 1], id)
    else if findings[|findings| - 1].id == id then Some(findings[|findings| - 1])
    else None
  }

  function EvidenceOf(claims: seq<Claim>, id: Id): seq<Path> {
    if claims == [] then []
    else if claims[0].id == id then claims[0].evidence
    else EvidenceOf(claims[1..], id)
  }

  /** What a contradiction cites and may cite: its criterion's own evidence, or a diff that is not blank. */
  function Cited(finding: Finding, trusted: Trusted): Option<string> {
    var cited := if finding.evidence.Some? then Trim(finding.evidence.value) else "";
    if finding.kind != Some(Contradicted) || cited == "" then None
    else if cited == "diff" then if IsBlank(trusted.diff) then None else Some(cited)
    else if cited in EvidenceOf(trusted.claims, finding.id) then Some(cited)
    else None
  }

  /** What a finding makes of a proven criterion. */
  function TakenDown(c: Criterion, finding: Finding, trusted: Trusted): (d: Criterion)
    ensures !d.outcome.Proven? && d.id == c.id && d.regression == c.regression
  {
    var cited := Cited(finding, trusted);
    if cited.Some? then c.(outcome := Failed, reason := "verifier: " + finding.problem + " (" + cited.value + ")")
    else c.(outcome := Unverified, reason := "verifier: " + finding.problem)
  }

  function Consume1(c: Criterion, findings: seq<Finding>, trusted: Trusted): Criterion {
    var finding := FirstFinding(findings, c.id);
    if finding.None? || !c.outcome.Proven? then c else TakenDown(c, finding.value, trusted)
  }

  predicate FirstAbout(findings: seq<Finding>, id: Id, j: int) {
    0 <= j < |findings| && findings[j].id == id && forall k :: 0 <= k < j ==> findings[k].id != id
  }

  predicate FirstClaim(claims: seq<Claim>, id: Id, m: int) {
    0 <= m < |claims| && claims[m].id == id && forall k :: 0 <= k < m ==> claims[k].id != id
  }

  /**
   A contradiction that cites, white space apart, what the run supplied: a diff that is
   not blank, or a file saved for the criterion.
   */
  ghost predicate Shown(finding: Finding, trusted: Trusted) {
    && finding.kind == Some(Contradicted) && finding.evidence.Some?
    && var cited := Trim(finding.evidence.value);
       && cited != ""
       && (cited == "diff" ==> !IsBlank(trusted.diff))
       && (cited != "diff" ==>
         exists m :: FirstClaim(trusted.claims, finding.id, m) && cited in trusted.claims[m].evidence)
  }

  /** A criterion a finding was held against: failed exactly when the contradiction is shown, unverified otherwise. */
  ghost predicate HeldAgainst(c: Criterion, d: Criterion, finding: Finding, trusted: Trusted) {
    && d.id == c.id && d.regression == c.regression
    && d.outcome == (if Shown(finding, trusted) then Failed else Unverified)
    && d.reason == "verifier: " + finding.problem
      + if Shown(finding, trusted) then " (" + Trim(finding.evidence.value) + ")" else ""
  }

  /** What the findings make of a criterion: a proven one is held to the first finding about it, any other stays. */
  ghost predicate HeldToFirst(c: Criterion, d: Criterion, findings: seq<Finding>, trusted: Trusted) {
    if c.outcome.Proven? && exists k :: 0 <= k < |findings| && findings[k].id == c.id
      then exists j :: FirstAbout(findings, c.id, j) && HeldAgainst(c, d, findings[j], trusted)
    else d == c
  }

  lemma {:induction false} BaresMore(c: char, text: string, t: string)
    requires IsSpace(c) && Bares(text, t)
    ensures Bares([c] + text, t) && Bares(text + [c], t)
  {
    var before: string, after: string :| IsBlank(before) && IsBlank(after) && text == before + t + after;
    OneMoreBlank(c, before);
    OneMoreBlank(c, after);
    hide IsBlank;
    assert [c] + text == ([c] + before) + t + after;
    assert text + [c] == before + t + (after + [c]);
  }

  lemma {:induction false} OneMoreBlank(c: char, text: string)
    requires IsSpace(c) && IsBlank(text)
    ensures IsBlank([c] + text) && IsBlank(text + [c])
  {
    hide IsSpace;
  }

  /** What is trimmed off is white space, and the rest is left whole. */
  lemma {:induction false} TrimBares(text: string)
    ensures Bares(text, Trim(text))
  {
    hide Bares, IsSpace, IsBlank;
    if text != "" && IsSpace(text[0]) {
      TrimBares(text[1..]);
      BaresMore(text[0], text[1..], Trim(text));
      assert text == [text[0]] + text[1..];
    } else if text != "" && IsSpace(text[|text| - 1]) {
      TrimBares(text[..|text| - 1]);
      BaresMore(text[|text| - 1], text[..|text| - 1], Trim(text));
      assert text == text[..|text| - 1] + [text[|text| - 1]];
    } else {
      BaresItself(text);
    }
  }

  lemma {:induction false} BaresItself(text: string)
    ensures Bares(text, text)
  {
    assert IsBlank("") && text == "" + text + "";
  }

  lemma {:induction false} FirstIsAbout(findings: seq<Finding>, id: Id)
    ensures FirstFinding(findings, id).Some? ==>
      exists j :: FirstAbout(findings, id, j) && findings[j] == FirstFinding(findings, id).value
  {
    if findings != [] {
      var n := |findings| - 1;
      var before := FirstFinding(findings[..n], id);
      FirstIsAbout(findings[..n], id);
      NoFindingIsNone(findings[..n], id);
      assert FirstFinding(findings, id) ==
        if before.Some? then before else if findings[n].id == id then Some(findings[n]) else None;
      hide FirstFinding;
      if before.Some? {
        var j :| FirstAbout(findings[..n], id, j) && findings[..n][j] == before.value;
        FirstStaysFirst(findings, n, id, j);
      } else if findings[n].id == id {
        assert forall k :: 0 <= k < n ==> findings[k] == findings[..n][k];
        assert FirstAbout(findings, id, n);
      }
    }
  }

  lemma {:induction false} FirstStaysFirst(findings: seq<Finding>, n: nat, id: Id, j: int)
    requires n <= |findings| && FirstAbout(findings[..n], id, j)
    ensures FirstAbout(findings, id, j) && findings[j] == findings[..n][j]
  {
    forall k | 0 <= k < j ensures findings[k].id != id {
      assert findings[..n][k] == findings[k];
    }
  }

  lemma {:induction false} EvidenceIsFirstClaims(claims: seq<Claim>, id: Id, cited: Path)
    ensures cited in EvidenceOf(claims, id) <==> exists m :: FirstClaim(claims, id, m) && cited in claims[m].evidence
  {
    if claims != [] {
      if claims[0].id == id {
        assert FirstClaim(claims, id, 0);
      } else {
        EvidenceIsFirstClaims(claims[1..], id, cited);
        if m :| FirstClaim(claims[1..], id, m) && cited in claims[1..][m].evidence {
          assert FirstClaim(claims, id, m + 1);
        }
        if m :| FirstClaim(claims, id, m) && cited in claims[m].evidence {
          assert FirstClaim(claims[1..], id, m - 1);
        }
      }
    }
  }

  lemma {:induction false} CitedIsShown(finding: Finding, trusted: Trusted)
    ensures Cited(finding, trusted)
      == if Shown(finding, trusted) then Some(Trim(finding.evidence.value)) else None
  {
    if finding.evidence.Some? {
      EvidenceIsFirstClaims(trusted.claims, finding.id, Trim(finding.evidence.value));
    }
  }

  lemma {:induction false} ConsumedIsHeldToFirst(c: Criterion, findings: seq<Finding>, trusted: Trusted)
    ensures HeldToFirst(c, Consume1(c, findings, trusted), findings, trusted)
  {
    hide Cited, Shown;
    FirstIsAbout(findings, c.id);
    NoFindingIsNone(findings, c.id);
    if c.outcome.Proven? && FirstFinding(findings, c.id).Some? {
      CitedIsShown(FirstFinding(findings, c.id).value, trusted);
    }
  }

  method ConsumeVerifierFindings(criteria: seq<Criterion>, findings: seq<Finding>, trusted: Trusted)
    returns (r: seq<Criterion>)
    ensures |r| == |criteria| && forall i :: 0 <= i < |criteria| ==> r[i] == Consume1(criteria[i], findings, trusted)
    ensures forall i :: 0 <= i < |criteria| ==> HeldToFirst(criteria[i], r[i], findings, trusted)
  {
    var first: map<Id, Finding> := map[];
    for i := 0 to |findings|
      invariant forall id :: id in first <==> FirstFinding(findings[..i], id).Some?
      invariant forall id :: id in first ==> FirstFinding(findings[..i], id) == Some(first[id])
    {
      assert findings[..i + 1][..i] == findings[..i];
      if findings[i].id !in first {
        first := first[findings[i].id := findings[i]];
      }
    }
    assert findings[..|findings|] == findings;
    r := [];
    for i := 0 to |criteria|
      invariant |r| == i && forall k :: 0 <= k < i ==> r[k] == Consume1(criteria[k], findings, trusted)
    {
      var c := criteria[i];
      if c.id !in first || !c.outcome.Proven? {
        r := r + [c];
      } else {
        var shownBy := Cited(first[c.id], trusted);
        if shownBy.Some? {
          r := r + [c.(outcome := Failed, reason := "verifier: " + first[c.id].problem + " (" + shownBy.value + ")")];
        } else {
          r := r + [c.(outcome := Unverified, reason := "verifier: " + first[c.id].problem)];
        }
      }
    }
    forall i | 0 <= i < |criteria| ensures HeldToFirst(criteria[i], r[i], findings, trusted) {
      ConsumedIsHeldToFirst(criteria[i], findings, trusted);
    }
  }

  function Unavailable(c: Criterion, why: string): Criterion {
    if c.outcome.Proven? then c.(outcome := Unverified, reason := "verifier did not answer: " + why) else c
  }

  function IdsIn(claims: seq<Claim>): set<Id> {
    set i | 0 <= i < |claims| :: claims[i].id
  }

  function About(findings: seq<Finding>, asked: set<Id>): (r: seq<Finding>)
    ensures forall id :: id in asked ==> FirstFinding(r, id) == FirstFinding(findings, id)
  {
    if findings == [] then []
    else
      var before, last := About(findings[..|findings| - 1], asked), findings[|findings| - 1];
      assert (before + [last])[..|before|] == before;
      if last.id in asked then before + [last] else before
  }

  /** What one turn makes of one criterion. */
  function AfterTurn(c: Criterion, batch: seq<Claim>, turn: Turn, diff: string): (d: Criterion)
    ensures Downgraded(c, d)
  {
    if c.id !in IdsIn(batch) then c
    else
      match turn
      case Unanswered(why) => Unavailable(c, why)
      case Answered(findings) => Consume1(c, findings, Trusted(batch, diff))
  }

  /** What the turns over the claims make of one criterion, the first turn being the `k`-th. */
  function AfterTurns(c: Criterion, claims: seq<Claim>, size: nat, runner: Runner, k: nat, diff: string): (d: Criterion)
    requires size > 0
    ensures Downgraded(c, d)
    decreases |claims|
  {
    if claims == [] then c
    else
      var n := Min(size, |claims|);
      AfterTurns(AfterTurn(c, claims[..n], runner(k, claims[..n]), diff), claims[n..], size, runner, k + 1, diff)
  }

  /**
   What the verifier makes of one criterion. Without a positive batch size no turn is
   taken, and every claim is as unavailable as if all turns had failed.
   */
  function Verified(c: Criterion, claims: seq<Claim>, size: Result<int, string>, runner: Runner,
      diff: string): (d: Criterion)
    ensures Downgraded(c, d)
  {
    if claims == [] then c
    else if size.Err? then Unavailable(c, size.error)
    else if size.value < 1 then Unavailable(c, BAD_SIZE)
    else AfterTurns(c, claims, size.value, runner, 0, diff)
  }

  method UnavailableAll(criteria: seq<Criterion>, asked: set<Id>, why: string) returns (r: seq<Criterion>)
    ensures |r| == |criteria|
    ensures forall i :: 0 <= i < |criteria| ==> r[i] == if criteria[i].id in asked then Unavailable(criteria[i], why)
      else criteria[i]
  {
    r := seq(|criteria|, i requires 0 <= i < |criteria| => if criteria[i].id in asked then Unavailable(criteria[i], why)
      else criteria[i]);
  }

  /** What one turn makes of the criteria: those it was not asked about stay. */
  method TakeTurn(criteria: seq<Criterion>, batch: seq<Claim>, turn: Turn, diff: string) returns (r: seq<Criterion>)
    ensures |r| == |criteria| && forall i :: 0 <= i < |criteria| ==> r[i] == AfterTurn(criteria[i], batch, turn, diff)
  {
    var asked := IdsIn(batch);
    match turn
    case Unanswered(why) =>
      r := UnavailableAll(criteria, asked, why);
    case Answered(findings) =>
      r := ConsumeVerifierFindings(criteria, About(findings, asked), Trusted(batch, diff));
      UnaskedStay(criteria, findings, batch, diff);
  }

  ghost predicate TurnsSoFar(criteria: seq<Criterion>, verdicts: seq<Criterion>, claims: seq<Claim>,
      start: nat, size: nat, runner: Runner, k: nat, diff: string)
    requires size > 0 && start <= |claims|
  {
    && |verdicts| == |criteria|
    && forall i :: 0 <= i < |criteria| ==>
      AfterTurns(verdicts[i], claims[start..], size, runner, k, diff)
        == AfterTurns(criteria[i], claims, size, runner, 0, diff)
  }

  /** Puts the claims to the model, a batch at a time. */
  method RunTurns(runner: Runner, criteria: seq<Criterion>, claims: seq<Claim>, diff: string, size: nat)
    returns (verdicts: seq<Criterion>)
    requires size > 0
    ensures |verdicts| == |criteria|
    ensures forall i :: 0 <= i < |criteria| ==> verdicts[i] == AfterTurns(criteria[i], claims, size, runner, 0, diff)
  {
    hide TurnsSoFar, AfterTurns, AfterTurn;
    verdicts := criteria;
    var start, k := 0, 0;
    FirstTurn(criteria, claims, size, runner, diff);
    while start < |claims|
      invariant start <= |claims|
      invariant TurnsSoFar(criteria, verdicts, claims, start, size, runner, k, diff)
      decreases |claims| - start
    {
      ghost var before := verdicts;
      var next := Min(start + size, |claims|);
      var batch := claims[start..next];
      var turn := runner(k, batch);
      verdicts := TakeTurn(verdicts, batch, turn, diff);
      NextTurn(criteria, before, verdicts, claims, start, size, runner, k, diff);
      start, k := next, k + 1;
    }
    LastTurn(criteria, verdicts, claims, size, runner, k, diff);
  }

  method RunVerifier(runner: Runner, criteria: seq<Criterion>, claims: seq<Claim>, diff: string,
      size: Result<int, string>)
    returns (verdicts: seq<Criterion>)
    ensures |verdicts| == |criteria|
    ensures forall i :: 0 <= i < |criteria| ==> verdicts[i] == Verified(criteria[i], claims, size, runner, diff)
  {
    if claims == [] {
      return criteria;
    }
    if size.Err? || size.value < 1 {
      var all := set i | 0 <= i < |criteria| :: criteria[i].id;
      verdicts := UnavailableAll(criteria, all, if size.Err? then size.error else BAD_SIZE);
      return;
    }
    verdicts := RunTurns(runner, criteria, claims, diff, size.value);
  }

  lemma {:induction false} FirstTurn(criteria: seq<Criterion>, claims: seq<Claim>, size: nat, runner: Runner,
      diff: string)
    requires size > 0
    ensures TurnsSoFar(criteria, criteria, claims, 0, size, runner, 0, diff)
  {
    assert claims[0..] == claims;
  }

  lemma {:induction false} LastTurn(criteria: seq<Criterion>, verdicts: seq<Criterion>, claims: seq<Claim>,
      size: nat, runner: Runner, k: nat, diff: string)
    requires size > 0 && TurnsSoFar(criteria, verdicts, claims, |claims|, size, runner, k, diff)
    ensures |verdicts| == |criteria|
    ensures forall i :: 0 <= i < |criteria| ==> verdicts[i] == AfterTurns(criteria[i], claims, size, runner, 0, diff)
  {
    assert claims[|claims|..] == [];
  }

  /** Findings about what was not asked are dropped, so they change nothing. */
  lemma {:induction false} UnaskedStay(verdicts: seq<Criterion>, findings: seq<Finding>, batch: seq<Claim>,
      diff: string)
    ensures forall i :: 0 <= i < |verdicts| ==>
      Consume1(verdicts[i], About(findings, IdsIn(batch)), Trusted(batch, diff))
        == AfterTurn(verdicts[i], batch, Answered(findings), diff)
  {
    forall i | 0 <= i < |verdicts| && verdicts[i].id !in IdsIn(batch)
      ensures FirstFinding(About(findings, IdsIn(batch)), verdicts[i].id).None?
    {
      UnaskedIsDropped(findings, IdsIn(batch), verdicts[i].id);
    }
  }

  lemma {:induction false} UnaskedIsDropped(findings: seq<Finding>, asked: set<Id>, id: Id)
    requires id !in asked
    ensures FirstFinding(About(findings, asked), id).None?
  {
    if findings != [] {
      var n := |findings| - 1;
      UnaskedIsDropped(findings[..n], asked, id);
      var before := About(findings[..n], asked);
      assert (before + [findings[n]])[..|before|] == before;
    }
  }

  lemma {:induction false} NextTurn(criteria: seq<Criterion>, before: seq<Criterion>, verdicts: seq<Criterion>,
      claims: seq<Claim>, start: nat, size: nat, runner: Runner, k: nat, diff: string)
    requires size > 0 && start < |claims|
    requires TurnsSoFar(criteria, before, claims, start, size, runner, k, diff)
    requires var batch := claims[start..Min(start + size, |claims|)];
      |verdicts| == |before| && forall i :: 0 <= i < |before| ==>
        verdicts[i] == AfterTurn(before[i], batch, runner(k, batch), diff)
    ensures TurnsSoFar(criteria, verdicts, claims, Min(start + size, |claims|), size, runner, k + 1, diff)
  {
    var rest, n := claims[start..], Min(size, |claims| - start);
    assert rest[..n] == claims[start..Min(start + size, |claims|)];
    assert rest[n..] == claims[Min(start + size, |claims|)..];
  }

  // ------------------------------------------------------------------ fails closed

  function Batches(claims: seq<Claim>, size: nat): seq<seq<Claim>>
    requires size > 0
    decreases |claims|
  {
    if claims == [] then [] else [claims[..Min(size, |claims|)]] + Batches(claims[Min(size, |claims|)..], size)
  }

  /** A turn that was answered readably, with nothing against an id. */
  predicate Clears(turn: Turn, id: Id) {
    turn.Answered? && forall i :: 0 <= i < |turn.findings| ==> turn.findings[i].id != id
  }

  lemma {:induction false} NoFindingIsNone(findings: seq<Finding>, id: Id)
    ensures FirstFinding(findings, id).None? <==> forall i :: 0 <= i < |findings| ==> findings[i].id != id
  {
    if findings != [] {
      var n := |findings| - 1;
      NoFindingIsNone(findings[..n], id);
      assert forall i :: 0 <= i < n ==> findings[..n][i] == findings[i];
      if FirstFinding(findings[..n], id).Some? {
        var i :| 0 <= i < n && findings[..n][i].id == id;
        assert findings[i].id == id;
      }
    }
  }

  /** Every turn that was asked about an id cleared it, the first of the turns being the `k`-th. */
  ghost predicate AllClear(id: Id, batches: seq<seq<Claim>>, runner: Runner, k: nat) {
    forall b :: 0 <= b < |batches| && id in IdsIn(batches[b]) ==> Clears(runner(k + b, batches[b]), id)
  }

  lemma {:induction false} FirstClears(id: Id, batch: seq<Claim>, rest: seq<seq<Claim>>, runner: Runner, k: nat)
    ensures AllClear(id, [batch] + rest, runner, k)
      <==> (id in IdsIn(batch) ==> Clears(runner(k, batch), id)) && AllClear(id, rest, runner, k + 1)
  {
    var batches := [batch] + rest;
    if AllClear(id, batches, runner, k) {
      assert batches[0] == batch && k + 0 == k;
      forall b | 0 <= b < |rest| && id in IdsIn(rest[b]) ensures Clears(runner(k + 1 + b, rest[b]), id) {
        assert batches[b + 1] == rest[b] && k + 1 + b == k + (b + 1);
      }
    }
    if (id in IdsIn(batch) ==> Clears(runner(k, batch), id)) && AllClear(id, rest, runner, k + 1) {
      forall b | 0 <= b < |batches| && id in IdsIn(batches[b]) ensures Clears(runner(k + b, batches[b]), id) {
        if b > 0 {
          assert batches[b] == rest[b - 1] && k + b == k + 1 + (b - 1);
        }
      }
    }
  }

  lemma {:induction false} OneTurnClears(c: Criterion, batch: seq<Claim>, turn: Turn, diff: string)
    requires c.outcome.Proven?
    ensures var d := AfterTurn(c, batch, turn, diff);
      && (d.outcome.Proven? <==> (c.id in IdsIn(batch) ==> Clears(turn, c.id)))
      && (d.outcome.Proven? ==> d == c)
  {
    if turn.Answered? {
      NoFindingIsNone(turn.findings, c.id);
    }
  }

  lemma {:induction false} StaysDown(c: Criterion, claims: seq<Claim>, size: nat, runner: Runner, k: nat, diff: string)
    requires size > 0 && !c.outcome.Proven?
    ensures AfterTurns(c, claims, size, runner, k, diff) == c
    decreases |claims|
  {
    if claims != [] {
      StaysDown(c, claims[Min(size, |claims|)..], size, runner, k + 1, diff);
    }
  }

  /**
   A proven criterion stays proven exactly when every turn that was asked about it
   answered readably with no finding against it; then it is left as it was. What
   the other turns did, and how the claims were cut into batches, is all one.
   */
  lemma {:induction false} StaysProvenIffCleared(c: Criterion, claims: seq<Claim>, size: nat, runner: Runner,
      k: nat, diff: string)
    requires size > 0 && c.outcome.Proven?
    ensures var d := AfterTurns(c, claims, size, runner, k, diff);
      && (d.outcome.Proven? <==> AllClear(c.id, Batches(claims, size), runner, k))
      && (d.outcome.Proven? ==> d == c)
    decreases |claims|
  {
    if claims != [] {
      hide AllClear, AfterTurn, Clears;
      var n := Min(size, |claims|);
      var batch, rest := claims[..n], Batches(claims[n..], size);
      var turn := runner(k, batch);
      OneTurnClears(c, batch, turn, diff);
      FirstClears(c.id, batch, rest, runner, k);
      var d := AfterTurn(c, batch, turn, diff);
      if d.outcome.Proven? {
        StaysProvenIffCleared(c, claims[n..], size, runner, k + 1, diff);
      } else {
        StaysDown(d, claims[n..], size, runner, k + 1, diff);
      }
    }
  }

  // --------------------------------------------------------- batches of every size

  /** One answer to each claim, about that claim. */
  ghost predicate PerClaim(answer: Claim -> seq<Finding>) {
    forall claim: Claim, i :: 0 <= i < |answer(claim)| ==> answer(claim)[i].id == claim.id
  }

  function AnswersTo(batch: seq<Claim>, answer: Claim -> seq<Finding>): seq<Finding> {
    if batch == [] then [] else AnswersTo(batch[..|batch| - 1], answer) + answer(batch[|batch| - 1])
  }

  /** A model that judges each claim on its own, whatever it is asked together with. */
  ghost predicate JudgesEachAlone(runner: Runner, answer: Claim -> seq<Finding>) {
    forall k: nat, batch: seq<Claim> :: runner(k, batch) == Answered(AnswersTo(batch, answer))
  }

  ghost predicate Agree(claims: seq<Claim>) {
    forall i, j :: 0 <= i < |claims| && 0 <= j < |claims| && claims[i].id == claims[j].id ==> claims[i] == claims[j]
  }

  lemma {:induction false} FirstOfBoth(a: seq<Finding>, b: seq<Finding>, id: Id)
    ensures FirstFinding(a + b, id) == if FirstFinding(a, id).Some? then FirstFinding(a, id) else FirstFinding(b, id)
    decreases |b|
  {
    if b == [] {
      assert a + b == a;
    } else {
      assert (a + b)[..|a + b| - 1] == a + b[..|b| - 1];
      FirstOfBoth(a, b[..|b| - 1], id);
    }
  }

  /** Among a batch's answers the first about a claim is the claim's own. */
  lemma {:induction false} FirstIsItsOwn(batch: seq<Claim>, claim: Claim, answer: Claim -> seq<Finding>)
    requires PerClaim(answer)
    requires forall i :: 0 <= i < |batch| && batch[i].id == claim.id ==> batch[i] == claim
    ensures FirstFinding(AnswersTo(batch, answer), claim.id)
      == if claim in batch then FirstFinding(answer(claim), claim.id) else None
  {
    if batch != [] {
      var n := |batch| - 1;
      var last := batch[n];
      FirstIsItsOwn(batch[..n], claim, answer);
      FirstOfBoth(AnswersTo(batch[..n], answer), answer(last), claim.id);
      if last.id != claim.id {
        NoFindingIsNone(answer(last), claim.id);
      }
      assert batch == batch[..n] + [last];
    }
  }

  lemma {:induction false} EvidenceIsItsOwn(batch: seq<Claim>, claim: Claim)
    requires claim in batch && forall i :: 0 <= i < |batch| && batch[i].id == claim.id ==> batch[i] == claim
    ensures EvidenceOf(batch, claim.id) == claim.evidence
  {
    if batch[0].id != claim.id {
      assert claim in batch[1..];
      EvidenceIsItsOwn(batch[1..], claim);
    }
  }

  /** What a model makes of a criterion it is asked about alone. */
  function Alone(c: Criterion, claim: Claim, answer: Claim -> seq<Finding>, diff: string): Criterion {
    Consume1(c, answer(claim), Trusted([claim], diff))
  }

  lemma {:induction false} TurnIsAlone(c: Criterion, batch: seq<Claim>, claim: Claim,
      answer: Claim -> seq<Finding>, diff: string)
    requires PerClaim(answer) && claim.id == c.id
    requires forall i :: 0 <= i < |batch| && batch[i].id == claim.id ==> batch[i] == claim
    ensures AfterTurn(c, batch, Answered(AnswersTo(batch, answer)), diff) == if claim in batch
      then Alone(c, claim, answer, diff) else c
  {
    assert claim in batch <==> c.id in IdsIn(batch);
    if claim in batch {
      FirstIsItsOwn(batch, claim, answer);
      EvidenceIsItsOwn(batch, claim);
      var finding := FirstFinding(answer(claim), c.id);
      if finding.Some? {
        FirstHasId(answer(claim), c.id);
        assert EvidenceOf([claim], claim.id) == claim.evidence;
        assert Cited(finding.value, Trusted(batch, diff)) == Cited(finding.value, Trusted([claim], diff));
      }
    }
  }

  lemma {:induction false} FirstHasId(findings: seq<Finding>, id: Id)
    ensures FirstFinding(findings, id).Some? ==> FirstFinding(findings, id).value.id == id
  {
    if findings != [] {
      FirstHasId(findings[..|findings| - 1], id);
    }
  }

  /** Asked again about a claim it has judged, the model changes nothing. */
  lemma {:induction false} AloneIsFinal(c: Criterion, claim: Claim, answer: Claim -> seq<Finding>, diff: string)
    requires claim.id == c.id
    ensures Alone(Alone(c, claim, answer, diff), claim, answer, diff) == Alone(c, claim, answer, diff)
  {
  }

  lemma {:induction false} RestAgrees(claims: seq<Claim>, claim: Claim, n: nat)
    requires Agree(claims + [claim]) && n <= |claims|
    ensures Agree(claims[n..] + [claim])
    ensures forall i :: 0 <= i < n && claims[..n][i].id == claim.id ==> claims[..n][i] == claim
    ensures claim in claims <==> claim in claims[..n] || claim in claims[n..]
  {
    var all, rest := claims + [claim], claims[n..] + [claim];
    assert claims == claims[..n] + claims[n..];
    assert forall i :: 0 <= i < |rest| ==> rest[i] == all[n + i];
    assert all[|claims|] == claim && forall i :: 0 <= i < n ==> claims[..n][i] == all[i];
  }

  /**
   A model that judges each claim on its own gives the same verdicts in batches of
   every size: those it gives each claim alone.
   */
  lemma {:induction false} BatchSizeDoesNotMatter(c: Criterion, claims: seq<Claim>, claim: Claim, size: nat,
      runner: Runner, k: nat, answer: Claim -> seq<Finding>, diff: string)
    requires size > 0 && PerClaim(answer) && JudgesEachAlone(runner, answer) && Agree(claims + [claim])
      && claim.id == c.id
    ensures AfterTurns(c, claims, size, runner, k, diff) == if claim in claims then Alone(c, claim, answer, diff) else c
    decreases |claims|
  {
    if claims != [] {
      hide Agree, PerClaim, Alone, AfterTurn, AnswersTo;
      var n := Min(size, |claims|);
      var batch, rest := claims[..n], claims[n..];
      RestAgrees(claims, claim, n);
      TurnIsAlone(c, batch, claim, answer, diff);
      AloneKeepsId(c, claim, answer, diff);
      AloneIsFinal(c, claim, answer, diff);
      BatchSizeDoesNotMatter(AfterTurn(c, batch, runner(k, batch), diff), rest, claim, size, runner, k + 1, answer,
        diff);
    }
  }

  lemma {:induction false} AloneKeepsId(c: Criterion, claim: Claim, answer: Claim -> seq<Finding>, diff: string)
    ensures Alone(c, claim, answer, diff).id == c.id
  {
  }

  // ------------------------------------------------------------- what a turn comes to

  predicate IsAsked(batch: seq<Claim>, id: Id) {
    exists k :: 0 <= k < |batch| && batch[k].id == id
  }

  /**
   What a turn makes of a criterion. One that is not proven, or that the turn was not asked
   about, stays; a turn without an answer leaves it unverified and says why; and an answer
   holds it to its first finding.
   */
  ghost predicate ComesTo(c: Criterion, d: Criterion, batch: seq<Claim>, turn: Turn, diff: string) {
    if !c.outcome.Proven? || !IsAsked(batch, c.id) then d == c
    else
      match turn
      case Unanswered(why) => d == Criterion(c.id, Unverified, c.regression, "verifier did not answer: " + why)
      case Answered(findings) => HeldToFirst(c, d, findings, Trusted(batch, diff))
  }

  lemma {:induction false} TurnComesTo(c: Criterion, batch: seq<Claim>, turn: Turn, diff: string)
    ensures ComesTo(c, AfterTurn(c, batch, turn, diff), batch, turn, diff)
  {
    hide HeldToFirst, Consume1;
    assert c.id in IdsIn(batch) <==> IsAsked(batch, c.id);
    if turn.Answered? {
      ConsumedIsHeldToFirst(c, turn.findings, Trusted(batch, diff));
      UnprovenIsKept(c, turn.findings, Trusted(batch, diff));
    }
  }

  lemma {:induction false} UnprovenIsKept(c: Criterion, findings: seq<Finding>, trusted: Trusted)
    ensures !c.outcome.Proven? ==> Consume1(c, findings, trusted) == c
  {
  }

  /** The claims are cut into batches of the size asked for, in their order, and what is left is the last. */
  lemma {:induction false} BatchesAreCut(claims: seq<Claim>, size: nat)
    requires size > 0
    ensures var batches := Batches(claims, size);
      && (forall b :: 0 <= b < |batches| ==> 0 < |batches[b]| <= size)
      && (forall b :: 0 <= b < |batches| - 1 ==> |batches[b]| == size)
      && Joined(batches) == claims
    decreases |claims|
  {
    if claims != [] {
      var n := Min(size, |claims|);
      BatchesAreCut(claims[n..], size);
      assert claims == claims[..n] + claims[n..];
    }
  }

  function Joined(batches: seq<seq<Claim>>): seq<Claim> {
    if batches == [] then [] else batches[0] + Joined(batches[1..])
  }

  /** The first turn that was asked about an id and did not clear it. */
  ghost predicate FirstAgainst(id: Id, batches: seq<seq<Claim>>, runner: Runner, k: nat, b: nat) {
    && b < |batches| && id in IdsIn(batches[b]) && !Clears(runner(k + b, batches[b]), id)
    && forall a :: 0 <= a < b && id in IdsIn(batches[a]) ==> Clears(runner(k + a, batches[a]), id)
  }

  /**
   What the turns make of a proven criterion is what the first of them makes of it that was
   asked about it and did not clear it, whatever the others say.
   */
  lemma {:induction false} FirstAgainstDecides(c: Criterion, claims: seq<Claim>, size: nat, runner: Runner, k: nat,
      diff: string, b: nat)
    requires size > 0 && c.outcome.Proven? && FirstAgainst(c.id, Batches(claims, size), runner, k, b)
    ensures var batch := Batches(claims, size)[b];
      AfterTurns(c, claims, size, runner, k, diff) == AfterTurn(c, batch, runner(k + b, batch), diff)
    decreases |claims|
  {
    var n := Min(size, |claims|);
    var batches, rest := Batches(claims, size), Batches(claims[n..], size);
    OneTurnClears(c, claims[..n], runner(k, claims[..n]), diff);
    if b == 0 {
      assert k + 0 == k;
      StaysDown(AfterTurn(c, batches[0], runner(k, batches[0]), diff), claims[n..], size, runner, k + 1, diff);
    } else {
      FirstAgainstLater(c.id, claims[..n], rest, runner, k, b);
      hide FirstAgainst, AfterTurn, Clears;
      FirstAgainstDecides(c, claims[n..], size, runner, k + 1, diff, b - 1);
      assert batches[b] == rest[b - 1] && k + 1 + (b - 1) == k + b;
    }
  }

  lemma {:induction false} FirstAgainstLater(id: Id, first: seq<Claim>, rest: seq<seq<Claim>>, runner: Runner, k: nat,
      b: nat)
    requires b > 0 && FirstAgainst(id, [first] + rest, runner, k, b)
    ensures FirstAgainst(id, rest, runner, k + 1, b - 1)
    ensures id in IdsIn(first) ==> Clears(runner(k, first), id)
  {
    var all := [first] + rest;
    assert all[b] == rest[b - 1] && k + 1 + (b - 1) == k + b && all[0] == first && k + 0 == k;
    forall a | 0 <= a < b - 1 && id in IdsIn(rest[a]) ensures Clears(runner(k + 1 + a, rest[a]), id) {
      assert all[a + 1] == rest[a] && k + (a + 1) == k + 1 + a;
    }
  }

  /** A batch size that cannot be read, or is not above zero, leaves nothing proven that was to be asked about. */
  lemma {:induction false} UnusableSizeProvesNothing(c: Criterion, claims: seq<Claim>, size: Result<int, string>,
      runner: Runner, diff: string)
    requires claims != [] && c.outcome.Proven? && (size.Err? || size.value < 1)
    ensures var why := if size.Err? then size.error else BAD_SIZE;
      Verified(c, claims, size, runner, diff)
        == Criterion(c.id, Unverified, c.regression, "verifier did not answer: " + why)
  {
  }
}
