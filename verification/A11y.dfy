/**
 Deciding what an accessibility check's audits come to: flattening audits into
 one finding per violated element, and giving each finding its status against
 the profile and the baseline.
 */
module A11y {
  import opened Prelude
  import opened A11yMatch

  /** One element of a violation: the selector that found it, and where the snapshot has it if it does. */
  datatype Node = Node(target: string, path: Option<string>)

  datatype Violation = Violation(rule: string, impact: Option<string>, nodes: seq<Node>)

  /** What one audit found, under its key; `page` is what its address comes to without host and query. */
  datatype Audit = Audit(page: string, key: AuditKey, violations: seq<Violation>)

  datatype Accepted = Accepted(rule: string, page: Option<string>, element: Option<string>, reason: string)

  datatype Config = Config(fail: seq<string>, accept: seq<Accepted>)

  /** The four things a decision can be made against: no base, the base itself, a base's audits, or their absence. */
  datatype Baseline = Nothing | BaseSide | BaseAudits(audits: seq<Audit>) | Unavailable

  datatype Status = New | Existing | AcceptedDebt(reason: string) | Reported | Uncompared

  datatype Flat = Flat(rule: string, impact: Option<string>, page: string, key: AuditKey, target: string,
      path: Option<string>)

  datatype Finding = Finding(flat: Flat, status: Status)

  datatype Counts = Counts(novel: nat, existing: nat, accepted: nat, reported: nat, uncompared: nat)

  datatype Outcome = Passed | Failed | Unverified

  datatype Decision = Decision(outcome: Outcome, transient: bool, findings: seq<Finding>, counts: Counts)

  // ----------------------------------------------------------------- flattening

  function FlatOf(audit: Audit, violation: Violation, node: Node): Flat {
    Flat(violation.rule, violation.impact, audit.page, audit.key, node.target, node.path)
  }

  function FlatNodes(audit: Audit, violation: Violation, nodes: seq<Node>): seq<Flat> {
    if nodes == [] then []
    else FlatNodes(audit, violation, nodes[..|nodes| - 1]) + [FlatOf(audit, violation, nodes[|nodes| - 1])]
  }

  function FlatViolations(audit: Audit, violations: seq<Violation>): seq<Flat> {
    if violations == [] then []
    else
      var last := violations[|violations| - 1];
      FlatViolations(audit, violations[..|violations| - 1]) + FlatNodes(audit, last, last.nodes)
  }

  /** Every violation on every element, in the order the audits list them. */
  function FlatAudits(audits: seq<Audit>): seq<Flat> {
    if audits == [] then []
    else
      var last := audits[|audits| - 1];
      FlatAudits(audits[..|audits| - 1]) + FlatViolations(last, last.violations)
  }

  method FlattenAudits(audits: seq<Audit>) returns (flat: seq<Flat>)
    ensures flat == FlatAudits(audits)
  {
    flat := [];
    for a := 0 to |audits|
      invariant flat == FlatAudits(audits[..a])
    {
      assert audits[..a + 1][..a] == audits[..a];
      var one := FlattenOne(audits[a]);
      flat := flat + one;
    }
    assert audits[..|audits|] == audits;
  }

  method FlattenOne(audit: Audit) returns (flat: seq<Flat>)
    ensures flat == FlatViolations(audit, audit.violations)
  {
    flat := [];
    for v := 0 to |audit.violations|
      invariant flat == FlatViolations(audit, audit.violations[..v])
    {
      var violation := audit.violations[v];
      assert audit.violations[..v + 1][..v] == audit.violations[..v];
      ghost var before := flat;
      for n := 0 to |violation.nodes|
        invariant flat == before + FlatNodes(audit, violation, violation.nodes[..n])
      {
        assert violation.nodes[..n + 1][..n] == violation.nodes[..n];
        flat := flat + [FlatOf(audit, violation, violation.nodes[n])];
      }
      assert violation.nodes[..|violation.nodes|] == violation.nodes;
    }
    assert audit.violations[..|audit.violations|] == audit.violations;
  }

  lemma {:induction false} NodesJoin(audit: Audit, violation: Violation, nodes: seq<Node>, more: seq<Node>)
    ensures FlatNodes(audit, violation, nodes + more)
      == FlatNodes(audit, violation, nodes) + FlatNodes(audit, violation, more)
    decreases |more|
  {
    if more == [] {
      assert nodes + more == nodes;
    } else {
      assert (nodes + more)[..|nodes + more| - 1] == nodes + more[..|more| - 1];
      NodesJoin(audit, violation, nodes, more[..|more| - 1]);
    }
  }

  lemma {:induction false} ViolationsJoin(audit: Audit, violations: seq<Violation>, more: seq<Violation>)
    ensures FlatViolations(audit, violations + more) == FlatViolations(audit, violations) + FlatViolations(audit, more)
    decreases |more|
  {
    if more == [] {
      assert violations + more == violations;
    } else {
      assert (violations + more)[..|violations + more| - 1] == violations + more[..|more| - 1];
      ViolationsJoin(audit, violations, more[..|more| - 1]);
    }
  }

  /** The findings of two lists of audits are those of the one and then those of the other. */
  lemma {:induction false} AuditsJoin(audits: seq<Audit>, more: seq<Audit>)
    ensures FlatAudits(audits + more) == FlatAudits(audits) + FlatAudits(more)
    decreases |more|
  {
    if more == [] {
      assert audits + more == audits;
    } else {
      var rest, last := more[..|more| - 1], more[|more| - 1];
      AuditsJoin(audits, rest);
      OneAuditMore(audits + rest, last);
      OneAuditMore(rest, last);
      hide FlatAudits, FlatViolations;
      assert more == rest + [last];
      Associates(audits, rest, [last]);
      Associates(FlatAudits(audits), FlatAudits(rest), FlatViolations(last, last.violations));
    }
  }

  lemma {:induction false} OneAuditMore(audits: seq<Audit>, last: Audit)
    ensures FlatAudits(audits + [last]) == FlatAudits(audits) + FlatViolations(last, last.violations)
  {
    assert (audits + [last])[..|audits|] == audits;
  }

  lemma {:induction false} OneAudit(audit: Audit)
    ensures FlatAudits([audit]) == FlatViolations(audit, audit.violations)
  {
    OneAuditMore([], audit);
    assert [] + [audit] == [audit];
  }

  lemma {:induction false} OneViolation(audit: Audit, violation: Violation)
    ensures FlatViolations(audit, [violation]) == FlatNodes(audit, violation, violation.nodes)
  {
    assert FlatViolations(audit, [violation][..0]) == [];
  }

  lemma {:induction false} SameViolations(audit: Audit, audit': Audit, violations: seq<Violation>)
    requires audit.page == audit'.page && audit.key == audit'.key
    ensures FlatViolations(audit, violations) == FlatViolations(audit', violations)
  {
    if violations != [] {
      SameViolations(audit, audit', violations[..|violations| - 1]);
      SameNodes(audit, audit', violations[|violations| - 1], violations[|violations| - 1].nodes);
    }
  }

  lemma {:induction false} SameNodes(audit: Audit, audit': Audit, violation: Violation, nodes: seq<Node>)
    requires audit.page == audit'.page && audit.key == audit'.key
    ensures FlatNodes(audit, violation, nodes) == FlatNodes(audit', violation, nodes)
  {
    if nodes != [] {
      SameNodes(audit, audit', violation, nodes[..|nodes| - 1]);
    }
  }

  lemma {:induction false} SameElements(audit: Audit, violation: Violation, violation': Violation, nodes: seq<Node>)
    requires violation.rule == violation'.rule && violation.impact == violation'.impact
    ensures FlatNodes(audit, violation, nodes) == FlatNodes(audit, violation', nodes)
  {
    if nodes != [] {
      SameElements(audit, violation, violation', nodes[..|nodes| - 1]);
    }
  }

  /** An audit's findings are those of its violations, one violation after another. */
  lemma {:induction false} AuditSplits(page: string, key: AuditKey, violations: seq<Violation>, more: seq<Violation>)
    ensures FlatAudits([Audit(page, key, violations + more)])
      == FlatAudits([Audit(page, key, violations)]) + FlatAudits([Audit(page, key, more)])
  {
    var both := Audit(page, key, violations + more);
    hide FlatAudits;
    OneAudit(both);
    OneAudit(Audit(page, key, violations));
    OneAudit(Audit(page, key, more));
    ViolationsJoin(both, violations, more);
    SameViolations(both, Audit(page, key, violations), violations);
    SameViolations(both, Audit(page, key, more), more);
  }

  /**
   A violation is one finding for each of its elements, in their order: those of the one
   part and then those of the other, and for a single element what the audit, the
   violation and the element say.
   */
  lemma {:induction false} ElementsAreFindings(page: string, key: AuditKey, rule: string, impact: Option<string>,
      nodes: seq<Node>, more: seq<Node>, node: Node)
    ensures FlatAudits([Audit(page, key, [Violation(rule, impact, nodes + more)])])
      == FlatAudits([Audit(page, key, [Violation(rule, impact, nodes)])])
        + FlatAudits([Audit(page, key, [Violation(rule, impact, more)])])
    ensures FlatAudits([Audit(page, key, [Violation(rule, impact, [node])])])
      == [Flat(rule, impact, page, key, node.target, node.path)]
  {
    ElementsOfOne(page, key, Violation(rule, impact, nodes + more), nodes + more);
    ElementsOfOne(page, key, Violation(rule, impact, nodes + more), nodes);
    ElementsOfOne(page, key, Violation(rule, impact, nodes + more), more);
    ElementsOfOne(page, key, Violation(rule, impact, nodes + more), [node]);
    hide FlatAudits;
    NodesJoin(Audit(page, key, []), Violation(rule, impact, nodes + more), nodes, more);
    assert FlatNodes(Audit(page, key, []), Violation(rule, impact, nodes + more), [node][..0]) == [];
  }

  lemma {:induction false} ElementsOfOne(page: string, key: AuditKey, violation: Violation, nodes: seq<Node>)
    ensures FlatAudits([Audit(page, key, [Violation(violation.rule, violation.impact, nodes)])])
      == FlatNodes(Audit(page, key, []), violation, nodes)
  {
    hide FlatAudits, FlatViolations, FlatNodes;
    var one := Violation(violation.rule, violation.impact, nodes);
    OneAudit(Audit(page, key, [one]));
    OneViolation(Audit(page, key, [one]), one);
    SameNodes(Audit(page, key, [one]), Audit(page, key, []), one, nodes);
    SameElements(Audit(page, key, []), one, violation, nodes);
  }

  function IdentityOf(flat: Flat): Identity {
    Identity(flat.key, flat.rule, flat.path, flat.target)
  }

  function Identities(flats: seq<Flat>): (ids: seq<Identity>)
    ensures |ids| == |flats|
    ensures forall i :: 0 <= i < |flats| ==> ids[i] == IdentityOf(flats[i])
  {
    if flats == [] then [] else Identities(flats[..|flats| - 1]) + [IdentityOf(flats[|flats| - 1])]
  }

  function AuditedKeys(audits: seq<Audit>): set<AuditKey> {
    set a | 0 <= a < |audits| :: audits[a].key
  }

  // ------------------------------------------------------- which are held against

  predicate Accepts(entry: Accepted, flat: Flat) {
    && entry.rule == flat.rule
    && (entry.page.None? || entry.page.value == flat.page)
    && (entry.element.None? || entry.element == flat.path || entry.element.value == flat.target)
  }

  /** The first of the profile's accepted entries that covers a violation. */
  function AcceptedBy(flat: Flat, accept: seq<Accepted>): Option<Accepted> {
    if accept == [] then None
    else if Accepts(accept[0], flat) then Some(accept[0])
    else AcceptedBy(flat, accept[1..])
  }

  predicate Fails(flat: Flat, config: Config) {
    flat.impact.Some? && flat.impact.value in config.fail
  }

  /** A failing violation the profile does not accept. */
  predicate Pending(flat: Flat, config: Config) {
    AcceptedBy(flat, config.accept).None? && Fails(flat, config)
  }

  function PendingIds(flats: seq<Flat>, config: Config): seq<Identity> {
    if flats == [] then []
    else
      var n := |flats| - 1;
      if Pending(flats[n], config) then PendingIds(flats[..n], config) + [IdentityOf(flats[n])]
      else PendingIds(flats[..n], config)
  }

  lemma {:induction false} PendingIdsPrefix(flats: seq<Flat>, config: Config, n: nat)
    requires n <= |flats|
    ensures PendingIds(flats[..n], config) <= PendingIds(flats, config)
    ensures n < |flats| && Pending(flats[n], config) ==>
      |PendingIds(flats[..n], config)| < |PendingIds(flats, config)|
      && PendingIds(flats, config)[|PendingIds(flats[..n], config)|] == IdentityOf(flats[n])
    decreases |flats|
  {
    if n == |flats| {
      assert flats[..n] == flats;
    } else {
      var rest := flats[..|flats| - 1];
      PendingIdsPrefix(rest, config, n);
      assert rest[..n] == flats[..n];
    }
  }

  /**
   Against base audits: not compared where the base audited nothing, existing where the
   matching excuses it, new otherwise.
   */
  function Compared(head: seq<Identity>, base: seq<Identity>, audited: set<AuditKey>, rank: nat): Status
    requires rank < |head|
  {
    if head[rank].audit !in audited then Uncompared
    else if Excused(head, base, rank) then Existing
    else New
  }

  /** The status of the `i`-th finding. */
  function StatusOf(flats: seq<Flat>, config: Config, baseline: Baseline, i: nat): Status
    requires i < |flats|
  {
    var entry := AcceptedBy(flats[i], config.accept);
    if entry.Some? then AcceptedDebt(entry.value.reason)
    else if !Fails(flats[i], config) then Reported
    else
      match baseline
      case Nothing => New
      case BaseSide => Existing
      case Unavailable => Uncompared
      case BaseAudits(audits) =>
        PendingIdsPrefix(flats, config, i);
        Compared(PendingIds(flats, config), Identities(FlatAudits(audits)), AuditedKeys(audits),
          |PendingIds(flats[..i], config)|)
  }

  function Findings(flats: seq<Flat>, config: Config, baseline: Baseline): (findings: seq<Finding>)
    ensures |findings| == |flats|
    ensures forall i :: 0 <= i < |flats| ==> findings[i] == Finding(flats[i], StatusOf(flats, config, baseline, i))
  {
    seq(|flats|, i requires 0 <= i < |flats| => Finding(flats[i], StatusOf(flats, config, baseline, i)))
  }

  function Tally(findings: seq<Finding>): Counts {
    if findings == [] then Counts(0, 0, 0, 0, 0)
    else
      var before := Tally(findings[..|findings| - 1]);
      match findings[|findings| - 1].status
      case New => before.(novel := before.novel + 1)
      case Existing => before.(existing := before.existing + 1)
      case AcceptedDebt(_) => before.(accepted := before.accepted + 1)
      case Reported => before.(reported := before.reported + 1)
      case Uncompared => before.(uncompared := before.uncompared + 1)
  }

  function OutcomeOf(counts: Counts): Outcome {
    if counts.novel > 0 then Failed else if counts.uncompared > 0 then Unverified else Passed
  }

  // ------------------------------------------------------------------ the method

  /** The two counter maps: how often the base has each exact identity, and each place, not yet used up. */
  datatype Counters = Counters(exact: map<Identity, int>, loose: map<Class, int>)

  function Get<K>(m: map<K, int>, k: K): int {
    if k in m then m[k] else 0
  }

  function Add<K>(m: map<K, int>, k: K, amount: int): map<K, int> {
    m[k := Get(m, k) + amount]
  }

  /** One violation more, or fewer, under its exact identity and under its place when it has one. */
  function AddBoth(counters: Counters, id: Identity, amount: int): Counters {
    Counters(Add(counters.exact, id, amount), AddLoose(counters, id, amount).loose)
  }

  function AddLoose(counters: Counters, id: Identity, amount: int): Counters {
    if id.path.Some? then counters.(loose := Add(counters.loose, ClassOf(id), amount)) else counters
  }

  /** The counters say, identity by identity and place by place, how much of the base they have seen. */
  ghost predicate Counted(counters: Counters, ids: seq<Identity>) {
    && (forall id :: Get(counters.exact, id) == multiset(ids)[id])
    && (forall c: Class :: c.AtPlace? ==> Get(counters.loose, c) == CountIn(ids, c))
  }

  lemma {:induction false} ExactOneMore(counters: Counters, ids: seq<Identity>, id: Identity, other: Identity)
    requires Get(counters.exact, other) == multiset(ids)[other]
    ensures Get(AddBoth(counters, id, 1).exact, other) == multiset(ids + [id])[other]
  {
    hide AddLoose;
    OneMoreCounts(ids, id, other);
  }

  lemma {:induction false} LooseOneMore(counters: Counters, ids: seq<Identity>, id: Identity, c: Class)
    requires c.AtPlace? && Get(counters.loose, c) == CountIn(ids, c)
    ensures Get(AddBoth(counters, id, 1).loose, c) == CountIn(ids + [id], c)
  {
    hide CountIn, LoosePath;
    CountSnoc(ids, id, c);
  }

  lemma {:induction false} CountOneMore(counters: Counters, ids: seq<Identity>, id: Identity)
    requires Counted(counters, ids)
    ensures Counted(AddBoth(counters, id, 1), ids + [id])
  {
    hide AddBoth, CountIn, Get;
    forall other ensures Get(AddBoth(counters, id, 1).exact, other) == multiset(ids + [id])[other] {
      ExactOneMore(counters, ids, id, other);
    }
    forall c: Class | c.AtPlace? ensures Get(AddBoth(counters, id, 1).loose, c) == CountIn(ids + [id], c) {
      LooseOneMore(counters, ids, id, c);
    }
  }

  lemma {:induction false} NothingCounted()
    ensures Counted(Counters(map[], map[]), [])
  {
  }

  /** The base's exact identities and places, counted in one pass over its flattened violations. */
  method CountBase(flats: seq<Flat>) returns (counters: Counters)
    ensures Counted(counters, Identities(flats))
  {
    hide AddBoth;
    counters := Counters(map[], map[]);
    assert Identities(flats[..0]) == [];
    NothingCounted();
    hide Counted;
    for n := 0 to |flats|
      invariant Counted(counters, Identities(flats[..n]))
    {
      assert flats[..n + 1][..n] == flats[..n];
      assert Identities(flats[..n + 1]) == Identities(flats[..n]) + [IdentityOf(flats[n])];
      CountOneMore(counters, Identities(flats[..n]), IdentityOf(flats[n]));
      counters := AddBoth(counters, IdentityOf(flats[n]), 1);
    }
    assert flats[..|flats|] == flats;
  }

  /** Neither excused by an exact counterpart nor left uncompared: what the second phase decides. */
  predicate Unmatched(head: seq<Identity>, base: seq<Identity>, audited: set<AuditKey>, r: nat)
    requires r < |head|
  {
    head[r].audit in audited && !Hit(head, base, r)
  }

  function UnmatchedRanks(head: seq<Identity>, base: seq<Identity>, audited: set<AuditKey>, n: nat): (ranks: seq<nat>)
    requires n <= |head|
    ensures forall u :: 0 <= u < |ranks| ==> ranks[u] < n
  {
    if n == 0 then []
    else if Unmatched(head, base, audited, n - 1) then UnmatchedRanks(head, base, audited, n - 1) + [n - 1]
    else UnmatchedRanks(head, base, audited, n - 1)
  }

  function IdsAt(head: seq<Identity>, ranks: seq<nat>): (ids: seq<Identity>)
    requires forall u :: 0 <= u < |ranks| ==> ranks[u] < |head|
    ensures |ids| == |ranks|
  {
    if ranks == [] then [] else IdsAt(head, ranks[..|ranks| - 1]) + [head[ranks[|ranks| - 1]]]
  }

  /** The list holds unmatched ranks alone, in order. */
  lemma {:induction false} UnmatchedRanksInOrder(head: seq<Identity>, base: seq<Identity>,
      audited: set<AuditKey>, n: nat, u: nat)
    requires n <= |head| && u < |UnmatchedRanks(head, base, audited, n)|
    ensures Unmatched(head, base, audited, UnmatchedRanks(head, base, audited, n)[u])
    ensures forall w :: 0 <= w < u ==>
      UnmatchedRanks(head, base, audited, n)[w] < UnmatchedRanks(head, base, audited, n)[u]
  {
    var before := UnmatchedRanks(head, base, audited, n - 1);
    if u < |before| {
      UnmatchedRanksInOrder(head, base, audited, n - 1, u);
      assert before <= UnmatchedRanks(head, base, audited, n);
    } else {
      assert UnmatchedRanks(head, base, audited, n) == before + [n - 1];
    }
  }

  lemma {:induction false} UnmatchedRanksHoldAll(head: seq<Identity>, base: seq<Identity>,
      audited: set<AuditKey>, n: nat, r: nat)
    requires r < n <= |head| && Unmatched(head, base, audited, r)
    ensures r in UnmatchedRanks(head, base, audited, n)
  {
    var before := UnmatchedRanks(head, base, audited, n - 1);
    if r == n - 1 {
      assert (before + [r])[|before|] == r;
    } else {
      UnmatchedRanksHoldAll(head, base, audited, n - 1, r);
      assert before <= UnmatchedRanks(head, base, audited, n);
      var u :| 0 <= u < |before| && before[u] == r;
      assert UnmatchedRanks(head, base, audited, n)[u] == r;
    }
  }

  lemma {:induction false} UnmatchedOneMore(head: seq<Identity>, base: seq<Identity>, audited: set<AuditKey>, n: nat,
      c: Class)
    requires n < |head|
    ensures CountIn(IdsAt(head, UnmatchedRanks(head, base, audited, n + 1)), c)
      == CountIn(IdsAt(head, UnmatchedRanks(head, base, audited, n)), c)
         + if Unmatched(head, base, audited, n) && ClassOf(head[n]) == c then 1 else 0
  {
    hide CountIn, ClassOf, Unmatched;
    var before := UnmatchedRanks(head, base, audited, n);
    if Unmatched(head, base, audited, n) {
      assert (before + [n])[..|before|] == before;
      CountSnoc(IdsAt(head, before), head[n], c);
    }
  }

  /** The second phase meets a place's misses in the order the head lists them. */
  lemma {:induction false} MissesAreUnmatched(head: seq<Identity>, base: seq<Identity>, audited: set<AuditKey>,
      n: nat, c: Class)
    requires n <= |head| && c.AtPlace? && c.audit in audited
    ensures MissesIn(head, base, n, c) == CountIn(IdsAt(head, UnmatchedRanks(head, base, audited, n)), c)
  {
    hide CountIn, IdsAt, UnmatchedRanks, Hit, ClassOf, Unmatched;
    if n == 0 {
      NoneUnmatched(head, base, audited, c);
    } else {
      MissesAreUnmatched(head, base, audited, n - 1, c);
      UnmatchedOneMore(head, base, audited, n - 1, c);
      if ClassOf(head[n - 1]) == c {
        UnmatchedAtPlace(head, base, audited, n - 1, c);
      }
    }
  }

  lemma {:induction false} NoneUnmatched(head: seq<Identity>, base: seq<Identity>, audited: set<AuditKey>, c: Class)
    ensures CountIn(IdsAt(head, UnmatchedRanks(head, base, audited, 0)), c) == 0
  {
  }

  lemma {:induction false} UnmatchedAtPlace(head: seq<Identity>, base: seq<Identity>, audited: set<AuditKey>, r: nat,
      c: Class)
    requires r < |head| && c.AtPlace? && c.audit in audited && ClassOf(head[r]) == c
    ensures Unmatched(head, base, audited, r) <==> !Hit(head, base, r)
  {
  }

  lemma {:induction false} UnmatchedPrefix(head: seq<Identity>, base: seq<Identity>, audited: set<AuditKey>, n: nat,
      u: nat)
    requires n <= |head| && u < |UnmatchedRanks(head, base, audited, n)|
    ensures UnmatchedRanks(head, base, audited, UnmatchedRanks(head, base, audited, n)[u])
      == UnmatchedRanks(head, base, audited, n)[..u]
  {
    if n > 0 {
      var before := UnmatchedRanks(head, base, audited, n - 1);
      if u < |before| {
        UnmatchedPrefix(head, base, audited, n - 1, u);
        assert UnmatchedRanks(head, base, audited, n)[..u] == before[..u];
      } else {
        assert UnmatchedRanks(head, base, audited, n)[..u] == before;
      }
    }
  }

  /** What the counters hold once `r` violations have been through the first phase. */
  ghost predicate FirstPhaseAt(counters: Counters, head: seq<Identity>, base: seq<Identity>, r: nat)
    requires r <= |head|
  {
    && ExactAt(counters.exact, head, base, r)
    && (forall c: Class :: c.AtPlace? ==> Get(counters.loose, c) == CountIn(base, c) - HitsIn(head, base, r, c))
  }

  ghost predicate ExactAt(exact: map<Identity, int>, head: seq<Identity>, base: seq<Identity>, r: nat)
    requires r <= |head|
  {
    forall id :: Get(exact, id) == multiset(base)[id] - Min(multiset(head[..r])[id], multiset(base)[id])
  }

  /** What the loose counter holds once the violations `seen` have been through the second phase. */
  ghost predicate SecondPhaseAt(counters: Counters, head: seq<Identity>, base: seq<Identity>, seen: seq<Identity>) {
    forall c: Class :: c.AtPlace? ==>
      Get(counters.loose, c) == LeftOver(head, base, c) - Min(CountIn(seen, c), LeftOver(head, base, c))
  }

  lemma {:induction false} ExactStep(exact: map<Identity, int>, head: seq<Identity>, base: seq<Identity>, r: nat)
    requires r < |head| && ExactAt(exact, head, base, r)
    ensures Get(exact, head[r]) > 0 <==> Hit(head, base, r)
    ensures ExactAt(if Hit(head, base, r) then Add(exact, head[r], -1) else exact, head, base, r + 1)
  {
    assert head[..r + 1] == head[..r] + [head[r]];
    assert multiset(head[..r + 1]) == multiset(head[..r]) + multiset{head[r]};
  }

  lemma {:induction false} FirstPhaseStep(counters: Counters, head: seq<Identity>, base: seq<Identity>, r: nat)
    requires r < |head| && FirstPhaseAt(counters, head, base, r)
    ensures Get(counters.exact, head[r]) > 0 <==> Hit(head, base, r)
    ensures FirstPhaseAt(if Hit(head, base, r) then AddBoth(counters, head[r], -1) else counters, head, base, r + 1)
  {
    ExactStep(counters.exact, head, base, r);
  }

  lemma {:induction false} SecondPhaseStep(counters: Counters, head: seq<Identity>, base: seq<Identity>,
      seen: seq<Identity>, id: Identity)
    requires SecondPhaseAt(counters, head, base, seen)
    ensures var c := ClassOf(id); var takes := c.AtPlace? && Get(counters.loose, c) > 0;
      && (takes <==> c.AtPlace? && CountIn(seen, c) < LeftOver(head, base, c))
      && SecondPhaseAt(if takes then AddLoose(counters, id, -1) else counters, head, base, seen + [id])
  {
    HitsWithinBase(head, base, |head|, ClassOf(id));
    forall c: Class | c.AtPlace? ensures CountIn(seen + [id], c) == CountIn(seen, c) + if ClassOf(id) == c then 1 else 0
    {
      CountSnoc(seen, id, c);
    }
  }

  lemma {:induction false} PhasesStart(counters: Counters, head: seq<Identity>, base: seq<Identity>)
    requires Counted(counters, base)
    ensures FirstPhaseAt(counters, head, base, 0)
  {
    assert head[..0] == [];
  }

  lemma {:induction false} PhasesMeet(counters: Counters, head: seq<Identity>, base: seq<Identity>)
    requires FirstPhaseAt(counters, head, base, |head|)
    ensures SecondPhaseAt(counters, head, base, [])
  {
    forall c: Class ensures LeftOver(head, base, c) >= 0 {
      HitsWithinBase(head, base, |head|, c);
    }
  }

  ghost predicate AuditedAll(base: seq<Identity>, audited: set<AuditKey>) {
    forall k :: 0 <= k < |base| ==> base[k].audit in audited
  }

  lemma {:induction false} BaseIsAudited(audits: seq<Audit>)
    ensures AuditedAll(Identities(FlatAudits(audits)), AuditedKeys(audits))
  {
    FlatsKeepKeys(audits);
  }

  lemma {:induction false} FlatsKeepKeys(audits: seq<Audit>)
    ensures forall k :: 0 <= k < |FlatAudits(audits)| ==> FlatAudits(audits)[k].key in AuditedKeys(audits)
  {
    if audits != [] {
      var rest, last := audits[..|audits| - 1], audits[|audits| - 1];
      FlatsKeepKeys(rest);
      ViolationsKeepKey(last, last.violations);
      assert audits[|audits| - 1].key in AuditedKeys(audits);
      assert AuditedKeys(rest) <= AuditedKeys(audits);
    }
  }

  lemma {:induction false} ViolationsKeepKey(audit: Audit, violations: seq<Violation>)
    ensures forall k :: 0 <= k < |FlatViolations(audit, violations)| ==>
      FlatViolations(audit, violations)[k].key == audit.key
  {
    if violations != [] {
      ViolationsKeepKey(audit, violations[..|violations| - 1]);
      NodesKeepKey(audit, violations[|violations| - 1], violations[|violations| - 1].nodes);
    }
  }

  lemma {:induction false} NodesKeepKey(audit: Audit, violation: Violation, nodes: seq<Node>)
    ensures forall k :: 0 <= k < |FlatNodes(audit, violation, nodes)| ==>
      FlatNodes(audit, violation, nodes)[k].key == audit.key
  {
    if nodes != [] {
      NodesKeepKey(audit, violation, nodes[..|nodes| - 1]);
    }
  }

  /** What one turn of the first phase must do. */
  lemma {:induction false} FirstPhaseTurn(counters: Counters, head: seq<Identity>, base: seq<Identity>,
      audited: set<AuditKey>, r: nat)
    requires r < |head| && FirstPhaseAt(counters, head, base, r) && AuditedAll(base, audited)
    ensures var hit := head[r].audit in audited && Get(counters.exact, head[r]) > 0;
      && FirstPhaseAt(if hit then AddBoth(counters, head[r], -1) else counters, head, base, r + 1)
      && FirstMark(head, base, audited, r) == (if hit then Existing else Uncompared)
      && UnmatchedRanks(head, base, audited, r + 1)
        == UnmatchedRanks(head, base, audited, r) + if hit || head[r].audit !in audited then [] else [r]
  {
    FirstPhaseStep(counters, head, base, r);
    if head[r].audit !in audited {
      NothingInBase(base, head[r]);
    }
  }

  /** What the first phase knows of a violation: excused by its exact counterpart, or not decided. */
  function FirstMark(head: seq<Identity>, base: seq<Identity>, audited: set<AuditKey>, q: nat): Status
    requires q < |head|
  {
    if head[q].audit in audited && Hit(head, base, q) then Existing else Uncompared
  }

  function FirstMarks(head: seq<Identity>, base: seq<Identity>, audited: set<AuditKey>, n: nat): seq<Status>
    requires n <= |head|
  {
    if n == 0 then [] else FirstMarks(head, base, audited, n - 1) + [FirstMark(head, base, audited, n - 1)]
  }

  lemma {:induction false} FirstMarksAt(head: seq<Identity>, base: seq<Identity>, audited: set<AuditKey>, n: nat)
    requires n <= |head|
    ensures |FirstMarks(head, base, audited, n)| == n
    ensures forall q :: 0 <= q < n ==> FirstMarks(head, base, audited, n)[q] == FirstMark(head, base, audited, q)
  {
    if n > 0 {
      FirstMarksAt(head, base, audited, n - 1);
    }
  }

  /**
   The first pass: each audited violation takes one count of its exact identity if the
   base has one left; what is returned is the counters less those, and the ranks that
   found none.
   */
  method FirstPhase(head: seq<Identity>, ghost base: seq<Identity>, audited: set<AuditKey>, counted: Counters)
    returns (counters: Counters, unmatched: seq<nat>, marks: seq<Status>)
    requires Counted(counted, base) && AuditedAll(base, audited)
    ensures SecondPhaseAt(counters, head, base, [])
    ensures unmatched == UnmatchedRanks(head, base, audited, |head|)
    ensures marks == FirstMarks(head, base, audited, |head|)
  {
    counters, unmatched, marks := counted, [], [];
    PhasesStart(counters, head, base);
    for r := 0 to |head|
      invariant FirstPhaseAt(counters, head, base, r)
      invariant unmatched == UnmatchedRanks(head, base, audited, r)
      invariant marks == FirstMarks(head, base, audited, r)
    {
      FirstPhaseTurn(counters, head, base, audited, r);
      if head[r].audit !in audited {
        marks := marks + [Uncompared];
      } else if Get(counters.exact, head[r]) > 0 {
        counters := AddBoth(counters, head[r], -1);
        marks := marks + [Existing];
      } else {
        unmatched := unmatched + [r];
        marks := marks + [Uncompared];
      }
    }
    PhasesMeet(counters, head, base);
  }

  /** When the second phase comes to a violation, it has seen exactly the earlier misses of its place. */
  lemma {:induction false} UnmatchedIsDecided(head: seq<Identity>, base: seq<Identity>, audited: set<AuditKey>, u: nat)
    requires u < |UnmatchedRanks(head, base, audited, |head|)|
    ensures var unmatched := UnmatchedRanks(head, base, audited, |head|); var r := unmatched[u];
      var c := ClassOf(head[r]);
      && (forall w :: 0 <= w < u ==> unmatched[w] != r)
      && Compared(head, base, audited, r)
        == if c.AtPlace? && CountIn(IdsAt(head, unmatched[..u]), c) < LeftOver(head, base, c) then Existing else New
  {
    var r := UnmatchedRanks(head, base, audited, |head|)[u];
    UnmatchedRanksInOrder(head, base, audited, |head|, u);
    UnmatchedPrefix(head, base, audited, |head|, u);
    if ClassOf(head[r]).AtPlace? {
      MissesAreUnmatched(head, base, audited, r, ClassOf(head[r]));
    }
  }

  /** What one turn of the second phase must do. */
  lemma {:induction false} SecondPhaseTurn(counters: Counters, head: seq<Identity>, base: seq<Identity>,
      audited: set<AuditKey>, u: nat)
    requires u < |UnmatchedRanks(head, base, audited, |head|)|
    requires SecondPhaseAt(counters, head, base, IdsAt(head, UnmatchedRanks(head, base, audited, |head|)[..u]))
    ensures var unmatched := UnmatchedRanks(head, base, audited, |head|); var r := unmatched[u];
      var takes := ClassOf(head[r]).AtPlace? && Get(counters.loose, ClassOf(head[r])) > 0;
      && Compared(head, base, audited, r) == (if takes then Existing else New)
      && SecondPhaseAt(if takes then AddLoose(counters, head[r], -1)
        else counters, head, base, IdsAt(head, unmatched[..u + 1]))
  {
    var unmatched := UnmatchedRanks(head, base, audited, |head|);
    UnmatchedIsDecided(head, base, audited, u);
    SecondPhaseStep(counters, head, base, IdsAt(head, unmatched[..u]), head[unmatched[u]]);
    assert unmatched[..u + 1][..u] == unmatched[..u];
  }

  /** Where the second phase stands: what the first settled, and what it has settled itself. */
  ghost predicate SettledUpTo(marks: seq<Status>, head: seq<Identity>, base: seq<Identity>,
      audited: set<AuditKey>, unmatched: seq<nat>, u: nat)
    requires u <= |unmatched| && forall w :: 0 <= w < |unmatched| ==> unmatched[w] < |head|
  {
    && |marks| == |head|
    && (forall q: nat :: q < |head| && !Unmatched(head, base, audited, q) ==>
      marks[q] == Compared(head, base, audited, q))
    && (forall w :: 0 <= w < u ==> marks[unmatched[w]] == Compared(head, base, audited, unmatched[w]))
  }

  lemma {:induction false} SettledOneMore(marks: seq<Status>, head: seq<Identity>, base: seq<Identity>,
      audited: set<AuditKey>, u: nat)
    requires u < |UnmatchedRanks(head, base, audited, |head|)|
    requires SettledUpTo(marks, head, base, audited, UnmatchedRanks(head, base, audited, |head|), u)
    ensures var unmatched := UnmatchedRanks(head, base, audited, |head|); var r := unmatched[u];
      SettledUpTo(marks[r := Compared(head, base, audited, r)], head, base, audited, unmatched, u + 1)
  {
    UnmatchedRanksInOrder(head, base, audited, |head|, u);
  }

  lemma {:induction false} AllSettled(marks: seq<Status>, head: seq<Identity>, base: seq<Identity>,
      audited: set<AuditKey>)
    requires var unmatched := UnmatchedRanks(head, base, audited, |head|);
      SettledUpTo(marks, head, base, audited, unmatched, |unmatched|)
    ensures forall q :: 0 <= q < |head| ==> marks[q] == Compared(head, base, audited, q)
  {
    forall q | 0 <= q < |head| ensures marks[q] == Compared(head, base, audited, q) {
      if Unmatched(head, base, audited, q) {
        UnmatchedRanksHoldAll(head, base, audited, |head|, q);
      }
    }
  }

  /** Then places: a violation without an exact counterpart is excused by one left at its place. */
  method SecondPhase(head: seq<Identity>, ghost base: seq<Identity>, ghost audited: set<AuditKey>,
                     left: Counters, unmatched: seq<nat>, first: seq<Status>)
    returns (marks: seq<Status>)
    requires SecondPhaseAt(left, head, base, [])
    requires unmatched == UnmatchedRanks(head, base, audited, |head|)
    requires first == FirstMarks(head, base, audited, |head|)
    ensures |marks| == |head|
    ensures forall q :: 0 <= q < |head| ==> marks[q] == Compared(head, base, audited, q)
  {
    var counters := left;
    marks := first;
    FirstMarksAt(head, base, audited, |head|);
    for u := 0 to |unmatched|
      invariant SecondPhaseAt(counters, head, base, IdsAt(head, unmatched[..u]))
      invariant SettledUpTo(marks, head, base, audited, unmatched, u)
    {
      var r := unmatched[u];
      SecondPhaseTurn(counters, head, base, audited, u);
      SettledOneMore(marks, head, base, audited, u);
      if ClassOf(head[r]).AtPlace? && Get(counters.loose, ClassOf(head[r])) > 0 {
        counters := AddLoose(counters, head[r], -1);
        marks := marks[r := Existing];
      } else {
        marks := marks[r := New];
      }
    }
    AllSettled(marks, head, base, audited);
  }

  // ---------------------------------------------------------------- the decision

  /** The status a finding starts from, before anything is held against base audits. */
  function Draft(flat: Flat, config: Config, baseline: Baseline): Status {
    var entry := AcceptedBy(flat, config.accept);
    if entry.Some? then AcceptedDebt(entry.value.reason)
    else if !Fails(flat, config) then Reported
    else if baseline.BaseAudits? || baseline.Unavailable? then Uncompared
    else New
  }

  function Drafts(flats: seq<Flat>, config: Config, baseline: Baseline): (findings: seq<Finding>)
    ensures |findings| == |flats|
  {
    if flats == [] then []
    else
      var last := flats[|flats| - 1];
      Drafts(flats[..|flats| - 1], config, baseline) + [Finding(last, Draft(last, config, baseline))]
  }

  lemma {:induction false} DraftsAt(flats: seq<Flat>, config: Config, baseline: Baseline)
    ensures forall i :: 0 <= i < |flats| ==>
      Drafts(flats, config, baseline)[i] == Finding(flats[i], Draft(flats[i], config, baseline))
  {
    if flats != [] {
      DraftsAt(flats[..|flats| - 1], config, baseline);
    }
  }

  /** Which findings are pending, first to last. */
  function PendingAt(flats: seq<Flat>, config: Config): (at: seq<nat>)
    ensures |at| == |PendingIds(flats, config)|
    ensures forall r :: 0 <= r < |at| ==> at[r] < |flats|
  {
    if flats == [] then []
    else
      var n := |flats| - 1;
      if Pending(flats[n], config) then PendingAt(flats[..n], config) + [n] else PendingAt(flats[..n], config)
  }

  lemma {:induction false} PendingAtRank(flats: seq<Flat>, config: Config, i: nat)
    requires i < |flats| && Pending(flats[i], config)
    ensures var rank := |PendingIds(flats[..i], config)|;
      rank < |PendingAt(flats, config)| && PendingAt(flats, config)[rank] == i
    decreases |flats|
  {
    var n := |flats| - 1;
    if i < n {
      PendingAtRank(flats[..n], config, i);
      assert flats[..n][..i] == flats[..i];
      assert PendingAt(flats[..n], config) <= PendingAt(flats, config);
    }
  }

  lemma {:induction false} PendingAtIsPending(flats: seq<Flat>, config: Config, r: nat)
    requires r < |PendingAt(flats, config)|
    ensures var i := PendingAt(flats, config)[r]; Pending(flats[i], config) && |PendingIds(flats[..i], config)| == r
    decreases |flats|
  {
    var n := |flats| - 1;
    var before := PendingAt(flats[..n], config);
    if r < |before| {
      PendingAtIsPending(flats[..n], config, r);
      assert PendingAt(flats, config)[r] == before[r];
      assert flats[..n][..before[r]] == flats[..before[r]];
    }
  }

  /** One finding a violation, accepted debt and mild impacts set aside, the rest listed as pending. */
  method Classify(flats: seq<Flat>, config: Config, baseline: Baseline)
    returns (findings: seq<Finding>, pending: seq<nat>, head: seq<Identity>)
    ensures findings == Drafts(flats, config, baseline)
    ensures pending == PendingAt(flats, config)
    ensures head == PendingIds(flats, config)
  {
    findings, pending, head := [], [], [];
    for i := 0 to |flats|
      invariant findings == Drafts(flats[..i], config, baseline)
      invariant pending == PendingAt(flats[..i], config)
      invariant head == PendingIds(flats[..i], config)
    {
      assert flats[..i + 1][..i] == flats[..i];
      var flat := flats[i];
      var entry := AcceptedBy(flat, config.accept);
      if entry.Some? {
        findings := findings + [Finding(flat, AcceptedDebt(entry.value.reason))];
      } else if flat.impact.None? || flat.impact.value !in config.fail {
        findings := findings + [Finding(flat, Reported)];
      } else {
        pending, head := pending + [i], head + [IdentityOf(flat)];
        findings := findings + [Finding(flat, if baseline.BaseAudits? || baseline.Unavailable? then Uncompared
          else New)];
      }
    }
    assert flats[..|flats|] == flats;
  }

  /** The findings once the first `r` pending ones carry their marks. */
  ghost predicate MarkedUpTo(findings: seq<Finding>, flats: seq<Flat>, config: Config, baseline: Baseline, r: nat) {
    && |findings| == |flats|
    && forall i :: 0 <= i < |flats| ==>
         findings[i] == Finding(flats[i],
           if Pending(flats[i], config) && |PendingIds(flats[..i], config)| < r
             then StatusOf(flats, config, baseline, i)
           else Draft(flats[i], config, baseline))
  }

  lemma {:induction false} MarkOneMore(findings: seq<Finding>, flats: seq<Flat>, config: Config, baseline: Baseline,
      r: nat)
    requires r < |PendingAt(flats, config)| && MarkedUpTo(findings, flats, config, baseline, r)
    ensures var i := PendingAt(flats, config)[r];
      MarkedUpTo(findings[i := findings[i].(status := StatusOf(flats, config, baseline, i))], flats, config, baseline,
        r + 1)
  {
    PendingAtIsPending(flats, config, r);
    forall i | 0 <= i < |flats| && Pending(flats[i], config) && |PendingIds(flats[..i], config)| == r
      ensures i == PendingAt(flats, config)[r]
    {
      PendingAtRank(flats, config, i);
    }
  }

  lemma {:induction false} AllMarked(findings: seq<Finding>, flats: seq<Flat>, config: Config, baseline: Baseline)
    requires baseline.BaseAudits? && MarkedUpTo(findings, flats, config, baseline, |PendingAt(flats, config)|)
    ensures findings == Findings(flats, config, baseline)
  {
    forall i | 0 <= i < |flats| ensures findings[i].status == StatusOf(flats, config, baseline, i) {
      if Pending(flats[i], config) {
        PendingAtRank(flats, config, i);
      }
    }
  }

  /** The pending findings held against the base's audits, and their statuses written back in place. */
  method HoldAgainst(flats: seq<Flat>, config: Config, audits: seq<Audit>, drafts: seq<Finding>,
      pending: seq<nat>, head: seq<Identity>)
    returns (findings: seq<Finding>)
    requires drafts == Drafts(flats, config, BaseAudits(audits))
    requires pending == PendingAt(flats, config) && head == PendingIds(flats, config)
    ensures findings == Findings(flats, config, BaseAudits(audits))
  {
    var audited := AuditedKeys(audits);
    var baseFlats := FlattenAudits(audits);
    var counted := CountBase(baseFlats);
    BaseIsAudited(audits);
    var left, unmatched, first := FirstPhase(head, Identities(baseFlats), audited, counted);
    var marks := SecondPhase(head, Identities(baseFlats), audited, left, unmatched, first);
    findings := drafts;
    DraftsAt(flats, config, BaseAudits(audits));
    for r := 0 to |pending|
      invariant MarkedUpTo(findings, flats, config, BaseAudits(audits), r)
    {
      MarkOneMore(findings, flats, config, BaseAudits(audits), r);
      MarkIsStatus(flats, config, audits, r);
      findings := findings[pending[r] := findings[pending[r]].(status := marks[r])];
    }
    AllMarked(findings, flats, config, BaseAudits(audits));
  }

  lemma {:induction false} MarkIsStatus(flats: seq<Flat>, config: Config, audits: seq<Audit>, r: nat)
    requires r < |PendingAt(flats, config)|
    ensures StatusOf(flats, config, BaseAudits(audits), PendingAt(flats, config)[r])
      == Compared(PendingIds(flats, config), Identities(FlatAudits(audits)), AuditedKeys(audits), r)
  {
    PendingAtIsPending(flats, config, r);
    StatusIsCompared(flats, config, audits, PendingAt(flats, config)[r]);
  }

  lemma {:induction false} StatusIsCompared(flats: seq<Flat>, config: Config, audits: seq<Audit>, i: nat)
    requires i < |flats| && Pending(flats[i], config)
    ensures var rank := |PendingIds(flats[..i], config)|;
      && rank < |PendingIds(flats, config)|
      && StatusOf(flats, config, BaseAudits(audits), i)
        == Compared(PendingIds(flats, config), Identities(FlatAudits(audits)), AuditedKeys(audits), rank)
  {
    PendingIdsPrefix(flats, config, i);
  }

  method Count(findings: seq<Finding>) returns (counts: Counts)
    ensures counts == Tally(findings)
  {
    counts := Counts(0, 0, 0, 0, 0);
    for n := 0 to |findings|
      invariant counts == Tally(findings[..n])
    {
      assert findings[..n + 1][..n] == findings[..n];
      match findings[n].status
      case New => counts := counts.(novel := counts.novel + 1);
      case Existing => counts := counts.(existing := counts.existing + 1);
      case AcceptedDebt(_) => counts := counts.(accepted := counts.accepted + 1);
      case Reported => counts := counts.(reported := counts.reported + 1);
      case Uncompared => counts := counts.(uncompared := counts.uncompared + 1);
    }
    assert findings[..|findings|] == findings;
  }

  /** On the base side no finding is new: the statuses and the tally are rewritten alike. */
  method RecordBase(drafts: seq<Finding>) returns (findings: seq<Finding>)
    ensures |findings| == |drafts|
    ensures forall i :: 0 <= i < |drafts| ==> findings[i] == Recorded(drafts[i])
    ensures var counts := Tally(drafts);
      Tally(findings) == counts.(novel := 0, existing := counts.existing + counts.novel)
  {
    findings := drafts;
    for n := 0 to |findings|
      invariant |findings| == |drafts|
      invariant forall i :: 0 <= i < |findings| ==> findings[i] == if i < n then Recorded(drafts[i]) else drafts[i]
    {
      if findings[n].status.New? {
        findings := findings[n := findings[n].(status := Existing)];
      }
    }
    TallyRecorded(drafts, findings);
  }

  /** A profile's entry covers a violation: its rule, and the page and the element where the entry names one. */
  predicate Covers(entry: Accepted, flat: Flat) {
    match entry
    case Accepted(rule, None, None, _) => rule == flat.rule
    case Accepted(rule, Some(page), None, _) => rule == flat.rule && page == flat.page
    case Accepted(rule, None, Some(element), _) =>
      rule == flat.rule && (element == flat.target || flat.path == Some(element))
    case Accepted(rule, Some(page), Some(element), _) =>
      rule == flat.rule && page == flat.page && (element == flat.target || flat.path == Some(element))
  }

  /** Entry `j` is the first of the profile's to cover a violation. */
  predicate FirstToCover(accept: seq<Accepted>, flat: Flat, j: int) {
    0 <= j < |accept| && Covers(accept[j], flat) && forall k :: 0 <= k < j ==> !Covers(accept[k], flat)
  }

  /**
   What a status says. Accepted is what some entry covers, for the first such entry's
   reason; reported what none covers and whose impact does not fail a check; and the
   rest is new with no base, existing on the base side, not compared where the base has
   no audit of the same key, and new or existing where it has.
   */
  ghost predicate Fits(status: Status, flat: Flat, config: Config, baseline: Baseline) {
    var covered := exists j :: 0 <= j < |config.accept| && Covers(config.accept[j], flat);
    var fails := exists f :: 0 <= f < |config.fail| && flat.impact == Some(config.fail[f]);
    && (status.AcceptedDebt? <==> covered)
    && (covered ==>
         exists j :: FirstToCover(config.accept, flat, j) && status == AcceptedDebt(config.accept[j].reason))
    && (status.Reported? <==> !covered && !fails)
    && (!covered && fails ==>
         match baseline
         case Nothing => status.New?
         case BaseSide => status.Existing?
         case Unavailable => status.Uncompared?
         case BaseAudits(audits) =>
           status.Uncompared? <==> forall a :: 0 <= a < |audits| ==> audits[a].key != flat.key)
  }

  lemma {:induction false} AcceptedByIsFirst(flat: Flat, accept: seq<Accepted>)
    ensures AcceptedBy(flat, accept).None? <==> forall j :: 0 <= j < |accept| ==> !Covers(accept[j], flat)
    ensures AcceptedBy(flat, accept).Some? ==>
      exists j :: FirstToCover(accept, flat, j) && AcceptedBy(flat, accept) == Some(accept[j])
  {
    if accept != [] {
      assert Accepts(accept[0], flat) <==> Covers(accept[0], flat);
      if Covers(accept[0], flat) {
        assert FirstToCover(accept, flat, 0);
      } else {
        hide Covers, Accepts;
        AcceptedByIsFirst(flat, accept[1..]);
        assert forall j :: 1 <= j < |accept| ==> accept[j] == accept[1..][j - 1];
        if j :| FirstToCover(accept[1..], flat, j) && AcceptedBy(flat, accept[1..]) == Some(accept[1..][j]) {
          assert FirstToCover(accept, flat, j + 1);
        }
      }
    }
  }

  lemma {:induction false} StatusFits(flats: seq<Flat>, config: Config, baseline: Baseline, i: nat)
    requires i < |flats|
    ensures Fits(StatusOf(flats, config, baseline, i), flats[i], config, baseline)
  {
    hide Covers, Excused, Accepts, PendingIds, Identities, FlatAudits;
    AcceptedByIsFirst(flats[i], config.accept);
    if baseline.BaseAudits? && Pending(flats[i], config) {
      PendingIdsPrefix(flats, config, i);
      assert IdentityOf(flats[i]).audit == flats[i].key;
    }
  }

  lemma {:induction false} StatusesFit(flats: seq<Flat>, config: Config, baseline: Baseline)
    ensures forall i :: 0 <= i < |flats| ==> Fits(StatusOf(flats, config, baseline, i), flats[i], config, baseline)
  {
    hide StatusOf, Fits;
    forall i | 0 <= i < |flats| ensures Fits(StatusOf(flats, config, baseline, i), flats[i], config, baseline) {
      StatusFits(flats, config, baseline, i);
    }
  }

  datatype Kind = IsNew | IsExisting | IsAccepted | IsReported | IsUncompared

  function KindOf(status: Status): Kind {
    match status
    case New => IsNew
    case Existing => IsExisting
    case AcceptedDebt(_) => IsAccepted
    case Reported => IsReported
    case Uncompared => IsUncompared
  }

  function Kinds(findings: seq<Finding>): (kinds: seq<Kind>)
    ensures |kinds| == |findings| && forall i :: 0 <= i < |findings| ==> kinds[i] == KindOf(findings[i].status)
  {
    seq(|findings|, i requires 0 <= i < |findings| => KindOf(findings[i].status))
  }

  /** Each count is the number of findings of its status. */
  ghost predicate CountsAll(counts: Counts, findings: seq<Finding>) {
    var kinds := multiset(Kinds(findings));
    && counts.novel == kinds[IsNew] && counts.existing == kinds[IsExisting] && counts.accepted == kinds[IsAccepted]
    && counts.reported == kinds[IsReported] && counts.uncompared == kinds[IsUncompared]
  }

  lemma {:induction false} TallyCounts(findings: seq<Finding>)
    ensures CountsAll(Tally(findings), findings)
  {
    if findings != [] {
      var n := |findings| - 1;
      TallyCounts(findings[..n]);
      assert Kinds(findings) == Kinds(findings[..n]) + [KindOf(findings[n].status)];
    }
  }

  /**
   From audits to a decision. Every violation on every element is one
   finding with the status `StatusOf` gives it; the base side passes whatever it
   found, and any other side by what is new and what could not be compared.
   */
  method DecideA11y(audits: seq<Audit>, config: Config, baseline: Baseline) returns (d: Decision)
    ensures d.findings == Findings(FlatAudits(audits), config, baseline)
    ensures d.counts == Tally(d.findings) && CountsAll(d.counts, d.findings)
    ensures d.outcome.Failed?
      <==> !baseline.BaseSide? && exists i :: 0 <= i < |d.findings| && d.findings[i].status.New?
    ensures d.outcome.Unverified?
      <==> !baseline.BaseSide? && (forall i :: 0 <= i < |d.findings| ==> !d.findings[i].status.New?)
           && exists i :: 0 <= i < |d.findings| && d.findings[i].status.Uncompared?
    ensures d.transient <==> d.outcome.Unverified?
    ensures forall i :: 0 <= i < |d.findings| ==> Fits(d.findings[i].status, d.findings[i].flat, config, baseline)
    ensures d.outcome == if baseline.BaseSide? then Passed else OutcomeOf(d.counts)
  {
    var flats := FlattenAudits(audits);
    StatusesFit(flats, config, baseline);
    TallyFinds(Findings(flats, config, baseline));
    TallyCounts(Findings(flats, config, baseline));
    hide Fits, CountsAll, FlatAudits, Compared, PendingIds, AcceptedBy, Fails, Identities, AuditedKeys, Tally;
    var findings, pending, head := Classify(flats, config, baseline);
    if baseline.BaseAudits? {
      findings := HoldAgainst(flats, config, baseline.audits, findings, pending, head);
    }
    var counts := Count(findings);
    DraftsAt(flats, config, baseline);
    if baseline.BaseSide? {
      findings := RecordBase(findings);
      assert findings == Findings(flats, config, baseline);
      return Decision(Passed, false, findings, counts.(novel := 0, existing := counts.existing + counts.novel));
    }
    assert findings == Findings(flats, config, baseline);
    if counts.novel > 0 {
      return Decision(Failed, false, findings, counts);
    }
    if counts.uncompared > 0 {
      return Decision(Unverified, true, findings, counts);
    }
    return Decision(Passed, false, findings, counts);
  }

  function Recorded(finding: Finding): Finding {
    if finding.status.New? then finding.(status := Existing) else finding
  }

  lemma {:induction false} TallyRecorded(drafts: seq<Finding>, findings: seq<Finding>)
    requires |drafts| == |findings| && forall i :: 0 <= i < |drafts| ==> findings[i] == Recorded(drafts[i])
    ensures var counts := Tally(drafts);
      Tally(findings) == counts.(novel := 0, existing := counts.existing + counts.novel)
  {
    if drafts != [] {
      TallyRecorded(drafts[..|drafts| - 1], findings[..|drafts| - 1]);
    }
  }

  // ------------------------------------------------------- what the outcome means

  /** A finding is counted under the status it carries: some finding is new exactly when the count says so. */
  lemma {:induction false} TallyFinds(findings: seq<Finding>)
    ensures Tally(findings).novel > 0 <==> exists i :: 0 <= i < |findings| && findings[i].status.New?
    ensures Tally(findings).uncompared > 0 <==> exists i :: 0 <= i < |findings| && findings[i].status.Uncompared?
  {
    if findings != [] {
      var n := |findings| - 1;
      TallyFinds(findings[..n]);
      assert forall i :: 0 <= i < n ==> findings[..n][i] == findings[i];
      assert findings[n] == findings[|findings| - 1];
    }
  }

  /** An audit held against itself never fails and leaves nothing uncompared, whatever the profile says. */
  lemma {:induction false} HeadAgainstItselfPasses(audits: seq<Audit>, config: Config)
    ensures OutcomeOf(Tally(Findings(FlatAudits(audits), config, BaseAudits(audits)))) == Passed
  {
    hide Findings, FlatAudits, OutcomeOf, Tally, StatusOf;
    var flats := FlatAudits(audits);
    var findings := Findings(flats, config, BaseAudits(audits));
    forall i | 0 <= i < |flats| ensures !findings[i].status.New? && !findings[i].status.Uncompared? {
      OwnFindingIsNotNew(audits, config, i);
    }
    TallyFinds(findings);
    NothingNewPasses(Tally(findings));
  }

  lemma {:induction false} NothingNewPasses(counts: Counts)
    ensures counts.novel == 0 && counts.uncompared == 0 ==> OutcomeOf(counts).Passed?
  {
  }

  lemma {:induction false} OwnFindingIsNotNew(audits: seq<Audit>, config: Config, i: nat)
    requires i < |FlatAudits(audits)|
    ensures var status := StatusOf(FlatAudits(audits), config, BaseAudits(audits), i);
      !status.New? && !status.Uncompared?
  {
    hide FlatAudits, Accepts, AuditedKeys, Identities, PendingIds, Hit;
    var flats := FlatAudits(audits);
    FlatsKeepKeys(audits);
    if Pending(flats[i], config) {
      PendingWithin(flats, config);
      PendingIdsPrefix(flats, config, i);
      var rank := |PendingIds(flats[..i], config)|;
      assert multiset(PendingIds(flats, config))[IdentityOf(flats[i])]
        <= multiset(Identities(flats))[IdentityOf(flats[i])];
      KnownIdentityIsExcused(PendingIds(flats, config), Identities(flats), rank);
    }
  }

  lemma {:induction false} PendingWithin(flats: seq<Flat>, config: Config)
    ensures multiset(PendingIds(flats, config)) <= multiset(Identities(flats))
  {
    if flats != [] {
      PendingWithin(flats[..|flats| - 1], config);
    }
  }

  lemma {:induction false} SameBaseSameStatus(flats: seq<Flat>, config: Config, audits: seq<Audit>,
      audits': seq<Audit>, i: nat)
    requires i < |flats| && AuditedKeys(audits) == AuditedKeys(audits')
    requires multiset(Identities(FlatAudits(audits))) == multiset(Identities(FlatAudits(audits')))
    ensures StatusOf(flats, config, BaseAudits(audits), i) == StatusOf(flats, config, BaseAudits(audits'), i)
  {
    if Pending(flats[i], config) {
      StatusIsCompared(flats, config, audits, i);
      StatusIsCompared(flats, config, audits', i);
      BaseOrderDoesNotMatter(PendingIds(flats, config), Identities(FlatAudits(audits)), Identities(FlatAudits(audits')),
        |PendingIds(flats[..i], config)|);
    }
  }

  /**
   Two baselines with the same audited keys and the same violations, in whatever order,
   give every finding the same status.
   */
  lemma {:induction false} SameBaseSameStatuses(flats: seq<Flat>, config: Config, audits: seq<Audit>,
      audits': seq<Audit>)
    requires AuditedKeys(audits) == AuditedKeys(audits')
    requires multiset(Identities(FlatAudits(audits))) == multiset(Identities(FlatAudits(audits')))
    ensures Findings(flats, config, BaseAudits(audits)) == Findings(flats, config, BaseAudits(audits'))
  {
    var one, other := Findings(flats, config, BaseAudits(audits)), Findings(flats, config, BaseAudits(audits'));
    forall i | 0 <= i < |flats| ensures one[i] == other[i] {
      SameBaseSameStatus(flats, config, audits, audits', i);
    }
  }

  // ------------------------------------------------- the counts and the matching

  /** How many of the first `n` pending violations the matching excuses. */
  ghost function ExcusedBefore(head: seq<Identity>, base: seq<Identity>, n: nat): set<nat>
    requires n <= |head|
  {
    set i: nat | i < n && Excused(head, base, i)
  }

  lemma {:induction false} ExcusedOneMoreBefore(head: seq<Identity>, base: seq<Identity>, n: nat)
    requires n < |head|
    ensures |ExcusedBefore(head, base, n + 1)| == |ExcusedBefore(head, base, n)| + if Excused(head, base, n) then 1
      else 0
  {
    var before, one := ExcusedBefore(head, base, n), if Excused(head, base, n) then {n} else {};
    assert ExcusedBefore(head, base, n + 1) == before + one by {
      forall i: nat ensures i in ExcusedBefore(head, base, n + 1) <==> i in before + one {
      }
    }
    assert n !in before;
  }

  function CountAudited(ids: seq<Identity>, audited: set<AuditKey>): nat {
    if ids == [] then 0
    else CountAudited(ids[..|ids| - 1], audited) + if ids[|ids| - 1].audit in audited then 1 else 0
  }

  lemma {:induction false} UnauditedIsNotExcused(head: seq<Identity>, audits: seq<Audit>, r: nat)
    requires r < |head| && head[r].audit !in AuditedKeys(audits)
    ensures !Excused(head, Identities(FlatAudits(audits)), r)
  {
    var base := Identities(FlatAudits(audits));
    BaseIsAudited(audits);
    NothingInBase(base, head[r]);
    HitsWithinBase(head, base, |head|, ClassOf(head[r]));
  }

  /** What the findings before the `i`-th, `rank` of them pending, have been counted as, in terms of the matching. */
  ghost predicate CountsMatch(head: seq<Identity>, base: seq<Identity>, audited: set<AuditKey>,
      findings: seq<Finding>, rank: nat, i: nat)
    requires i <= |findings| && rank <= |head|
  {
    var counts := Tally(findings[..i]);
    && counts.existing == |ExcusedBefore(head, base, rank)|
    && counts.novel + counts.existing == CountAudited(head[..rank], audited)
  }

  lemma {:induction false} TallyOneMore(findings: seq<Finding>, i: nat)
    requires i < |findings|
    ensures Tally(findings[..i + 1]).existing == Tally(findings[..i]).existing + if findings[i].status.Existing? then 1
      else 0
    ensures Tally(findings[..i + 1]).novel == Tally(findings[..i]).novel + if findings[i].status.New? then 1 else 0
  {
    assert findings[..i + 1][..i] == findings[..i];
  }

  lemma {:induction false} PendingOneMore(flats: seq<Flat>, config: Config, i: nat)
    requires i < |flats|
    ensures var rank := |PendingIds(flats[..i], config)|;
      && |PendingIds(flats[..i + 1], config)| == rank + (if Pending(flats[i], config) then 1 else 0)
      && (Pending(flats[i], config) ==> rank < |PendingIds(flats, config)|)
  {
    assert flats[..i + 1][..i] == flats[..i];
    PendingIdsPrefix(flats, config, i);
  }

  /**
   A pending finding is existing exactly when it is excused, and new exactly when the
   base audited its page and it is not.
   */
  lemma {:induction false} StatusOfPending(flats: seq<Flat>, config: Config, audits: seq<Audit>, i: nat)
    requires i < |flats| && |PendingIds(flats[..i], config)| < |PendingIds(flats, config)| && Pending(flats[i], config)
    ensures var head, rank := PendingIds(flats, config), |PendingIds(flats[..i], config)|;
      var status := StatusOf(flats, config, BaseAudits(audits), i);
      && (status.Existing? <==> Excused(head, Identities(FlatAudits(audits)), rank))
      && (status.New? || status.Existing? <==> head[rank].audit in AuditedKeys(audits))
  {
    var head, rank := PendingIds(flats, config), |PendingIds(flats[..i], config)|;
    if head[rank].audit !in AuditedKeys(audits) {
      UnauditedIsNotExcused(head, audits, rank);
    }
  }

  lemma {:induction false} CountsMatchOneMore(head: seq<Identity>, base: seq<Identity>, audited: set<AuditKey>,
      findings: seq<Finding>, rank: nat, i: nat)
    requires i < |findings| && rank < |head| && CountsMatch(head, base, audited, findings, rank, i)
    requires findings[i].status.Existing? <==> Excused(head, base, rank)
    requires findings[i].status.New? || findings[i].status.Existing? <==> head[rank].audit in audited
    ensures CountsMatch(head, base, audited, findings, rank + 1, i + 1)
  {
    TallyOneMore(findings, i);
    ExcusedOneMoreBefore(head, base, rank);
    assert head[..rank + 1][..rank] == head[..rank];
  }

  lemma {:induction false} CountsMatchSkip(head: seq<Identity>, base: seq<Identity>, audited: set<AuditKey>,
      findings: seq<Finding>, rank: nat, i: nat)
    requires i < |findings| && rank <= |head| && CountsMatch(head, base, audited, findings, rank, i)
    requires !findings[i].status.New? && !findings[i].status.Existing?
    ensures CountsMatch(head, base, audited, findings, rank, i + 1)
  {
    TallyOneMore(findings, i);
  }

  lemma {:induction false} CountsMatchAtStart(head: seq<Identity>, base: seq<Identity>, audited: set<AuditKey>,
      findings: seq<Finding>)
    ensures CountsMatch(head, base, audited, findings, 0, 0)
  {
    assert ExcusedBefore(head, base, 0) == {};
    assert head[..0] == [] && findings[..0] == [];
  }

  lemma {:induction false} NothingPending(flats: seq<Flat>, config: Config)
    ensures PendingIds(flats[..0], config) == []
  {
  }

  lemma {:induction false} SetAsideIsNeither(flats: seq<Flat>, config: Config, audits: seq<Audit>, i: nat)
    requires i < |flats| && !Pending(flats[i], config)
    ensures !StatusOf(flats, config, BaseAudits(audits), i).New?
      && !StatusOf(flats, config, BaseAudits(audits), i).Existing?
  {
  }

  lemma {:induction false} CountsMatchUpTo(flats: seq<Flat>, config: Config, audits: seq<Audit>, i: nat)
    requires i <= |flats|
    ensures |PendingIds(flats[..i], config)| <= |PendingIds(flats, config)|
    ensures CountsMatch(PendingIds(flats, config), Identities(FlatAudits(audits)), AuditedKeys(audits),
              Findings(flats, config, BaseAudits(audits)), |PendingIds(flats[..i], config)|, i)
  {
    var head, base, audited := PendingIds(flats, config), Identities(FlatAudits(audits)), AuditedKeys(audits);
    var findings := Findings(flats, config, BaseAudits(audits));
    hide PendingIds, CountsMatch, Identities, FlatAudits, AuditedKeys, Pending, StatusOf;
    if i == 0 {
      NothingPending(flats, config);
      CountsMatchAtStart(head, base, audited, findings);
    } else {
      var rank := |PendingIds(flats[..i - 1], config)|;
      CountsMatchUpTo(flats, config, audits, i - 1);
      PendingOneMore(flats, config, i - 1);
      if Pending(flats[i - 1], config) {
        StatusOfPending(flats, config, audits, i - 1);
        CountsMatchOneMore(head, base, audited, findings, rank, i - 1);
      } else {
        SetAsideIsNeither(flats, config, audits, i - 1);
        CountsMatchSkip(head, base, audited, findings, rank, i - 1);
      }
    }
  }

  /**
   The counts a decision reports against base audits: the existing ones number as
   many as the best matching can excuse, and every other pending violation the
   base audited is new.
   */
  lemma {:induction false} CountsAreTheMatching(flats: seq<Flat>, config: Config, audits: seq<Audit>)
    ensures var head, base := PendingIds(flats, config), Identities(FlatAudits(audits));
      var counts := Tally(Findings(flats, config, BaseAudits(audits)));
      && counts.existing == |ExcusedSet(head, base)|
      && counts.novel == CountAudited(head, AuditedKeys(audits)) - |ExcusedSet(head, base)|
  {
    var head, base := PendingIds(flats, config), Identities(FlatAudits(audits));
    var findings := Findings(flats, config, BaseAudits(audits));
    CountsMatchUpTo(flats, config, audits, |flats|);
    assert flats[..|flats|] == flats && findings[..|findings|] == findings && head[..|head|] == head;
    assert ExcusedBefore(head, base, |head|) == ExcusedSet(head, base);
  }

  lemma {:induction false} FewerKeysCountFewer(ids: seq<Identity>, some: set<AuditKey>, all: set<AuditKey>)
    requires some <= all
    ensures CountAudited(ids, some) <= CountAudited(ids, all)
  {
    if ids != [] {
      FewerKeysCountFewer(ids[..|ids| - 1], some, all);
    }
  }

  /** A base with more violations that audited nothing more leaves no more of the head's new. */
  lemma {:induction false} LargerBaseFailsNoMore(flats: seq<Flat>, config: Config, audits: seq<Audit>,
      larger: seq<Audit>)
    requires AuditedKeys(larger) <= AuditedKeys(audits)
    requires multiset(Identities(FlatAudits(audits))) <= multiset(Identities(FlatAudits(larger)))
    ensures Tally(Findings(flats, config, BaseAudits(larger))).novel
      <= Tally(Findings(flats, config, BaseAudits(audits))).novel
  {
    CountsAreTheMatching(flats, config, audits);
    CountsAreTheMatching(flats, config, larger);
    FewerKeysCountFewer(PendingIds(flats, config), AuditedKeys(larger), AuditedKeys(audits));
    LargerBaseExcusesNoFewer(PendingIds(flats, config), Identities(FlatAudits(audits)), Identities(FlatAudits(larger)));
  }

  function Copies<T>(x: T, n: nat): (s: seq<T>)
    ensures |s| == n && forall i :: 0 <= i < n ==> s[i] == x
  {
    seq(n, _ => x)
  }

  lemma {:induction false} CopiesPending(flat: Flat, config: Config, n: nat)
    requires Pending(flat, config)
    ensures PendingIds(Copies(flat, n), config) == Copies(IdentityOf(flat), n)
  {
    if n > 0 {
      CopiesPending(flat, config, n - 1);
      assert Copies(flat, n)[..n - 1] == Copies(flat, n - 1);
      assert Copies(IdentityOf(flat), n - 1) + [IdentityOf(flat)] == Copies(IdentityOf(flat), n);
    }
  }

  lemma {:induction false} CopiesCounted(id: Identity, n: nat, audited: set<AuditKey>)
    ensures CountAudited(Copies(id, n), audited) == if id.audit in audited then n else 0
    ensures CountIn(Copies(id, n), ClassOf(id)) == n
  {
    if n > 0 {
      CopiesCounted(id, n - 1, audited);
      assert Copies(id, n)[..n - 1] == Copies(id, n - 1);
    }
  }

  lemma {:induction false} ExcusedCopies(id: Identity, n: nat, base: seq<Identity>)
    ensures |ExcusedSet(Copies(id, n), base)| == Min(n, CountIn(base, ClassOf(id)))
  {
    hide CountIn, Excused;
    var head := Copies(id, n);
    CopiesCounted(id, n, {});
    ExcusedAreTheSmallerCount(head, base, ClassOf(id));
    ExcusedAreCounted(head, base, n, ClassOf(id));
    assert ExcusedUpTo(head, base, n, ClassOf(id)) == ExcusedSet(head, base);
  }

  /** Of `n` violations alike, a base that audited their page leaves new what its own number of them does not excuse. */
  lemma {:induction false} NewAmongCopies(flat: Flat, config: Config, n: nat, audits: seq<Audit>)
    requires Pending(flat, config)
    ensures Tally(Findings(Copies(flat, n), config, BaseAudits(audits))).novel
      == if flat.key in AuditedKeys(audits)
        then Max(0, n - CountIn(Identities(FlatAudits(audits)), ClassOf(IdentityOf(flat)))) else 0
  {
    hide CountIn, CountAudited, Findings, PendingIds, Pending, Tally, Copies, ExcusedSet, Identities, FlatAudits,
      AuditedKeys;
    CopiesPending(flat, config, n);
    CountsAreTheMatching(Copies(flat, n), config, audits);
    CopiesCounted(IdentityOf(flat), n, AuditedKeys(audits));
    ExcusedCopies(IdentityOf(flat), n, Identities(FlatAudits(audits)));
  }

  /**
   A larger base never adds a new finding, whatever the head and the profile, if and
   only if it audited nothing the smaller one did not. On a page only the larger one
   audited, one violation more than it has there is new, where it could not be compared.
   */
  lemma {:induction false} LargerBaseNeverFailsMoreIff(audits: seq<Audit>, larger: seq<Audit>)
    requires multiset(Identities(FlatAudits(audits))) <= multiset(Identities(FlatAudits(larger)))
    ensures (forall flats, config ::
        Tally(Findings(flats, config, BaseAudits(larger))).novel
          <= Tally(Findings(flats, config, BaseAudits(audits))).novel)
      <==> AuditedKeys(larger) <= AuditedKeys(audits)
  {
    hide Findings, Tally, Identities, FlatAudits, AuditedKeys, CountIn;
    if AuditedKeys(larger) <= AuditedKeys(audits) {
      forall flats, config {
        LargerBaseFailsNoMore(flats, config, audits, larger);
      }
    } else {
      var key :| key in AuditedKeys(larger) && key !in AuditedKeys(audits);
      var flat, config := Flat("", Some(""), "", key, "", None), Config([""], []);
      var n := CountIn(Identities(FlatAudits(larger)), ClassOf(IdentityOf(flat))) + 1;
      NewAmongCopies(flat, config, n, audits);
      NewAmongCopies(flat, config, n, larger);
    }
  }

  /** So it happens: one more base audit, which found nothing, turns a violation that was uncompared into a new one. */
  lemma {:induction false} NewAuditMayFailWhatWasUnverified(flat: Flat, config: Config, page: string)
    requires Pending(flat, config)
    ensures Tally(Findings([flat], config, BaseAudits([]))) == Counts(0, 0, 0, 0, 1)
    ensures Tally(Findings([flat], config, BaseAudits([Audit(page, flat.key, [])]))) == Counts(1, 0, 0, 0, 0)
  {
    var more := [Audit(page, flat.key, [])];
    assert more[0].key in AuditedKeys(more);
    assert [flat][..0] == [];
    assert PendingIds([flat], config) == [IdentityOf(flat)] && PendingIds([], config) == [];
    assert FlatAudits(more) == FlatAudits(more[..0]) + FlatViolations(more[0], []);
    OneFinding(Findings([flat], config, BaseAudits([])));
    OneFinding(Findings([flat], config, BaseAudits(more)));
  }

  lemma {:induction false} OneFinding(findings: seq<Finding>)
    requires |findings| == 1
    ensures findings[0].status.New? ==> Tally(findings) == Counts(1, 0, 0, 0, 0)
    ensures findings[0].status.Uncompared? ==> Tally(findings) == Counts(0, 0, 0, 0, 1)
  {
    assert findings[..0] == [];
  }
}
