/**
 The record a base side leaves of its audits, and the audits the head side
 rebuilds from it. Redaction is taken as the identity on both sides.
 */
module A11yRecord {
  import opened Prelude
  import opened A11yMatch
  import opened A11y

  /**
   A field of a record that was read: a number, a text, or anything else there may be
   there, with what it is when it is turned into a text.
   */
  datatype Field = Number(n: NumberText) | Text(s: string) | Other(shown: string)

  datatype AuditEntry = AuditEntry(point: Field, width: Field, theme: Field, page: Field)

  datatype FindingEntry =
    FindingEntry(rule: Field, impact: Field, target: Field, path: Field, point: Field, width: Field, theme: Field)

  /** A field that is left out of what is written reads as nothing at all. */
  const UNDEFINED := Other("undefined")

  // ----------------------------------------------------------------------- keys

  /** The text audits and findings find each other by. */
  function Joined(point: string, width: string, theme: string): string {
    point + [BAR] + (width + [BAR] + theme)
  }

  function KeyText(key: AuditKey): string {
    Joined(key.point, key.width, key.theme)
  }

  lemma {:induction false} FirstBar(a: string, rest: string)
    requires BAR !in a
    ensures (a + [BAR] + rest)[|a|] == BAR && forall i :: 0 <= i < |a| ==> (a + [BAR] + rest)[i] != BAR
  {
  }

  lemma {:induction false} CutAtFirstBar(a: string, b: string, rest: string, rest': string)
    requires BAR !in a && BAR !in b && a + [BAR] + rest == b + [BAR] + rest'
    ensures a == b && rest == rest'
  {
    var text := a + [BAR] + rest;
    FirstBar(a, rest);
    FirstBar(b, rest');
    assert |a| == |b|;
    assert text[..|a|] == a && text[..|b|] == b && text[|a| + 1..] == rest && text[|b| + 1..] == rest';
  }

  /** The text of a key tells keys apart, whatever the theme is called. */
  lemma {:induction false} KeyTextsDiffer(k: AuditKey, l: AuditKey)
    requires KeyText(k) == KeyText(l)
    ensures k == l
  {
    CutAtFirstBar(k.point, l.point, k.width + [BAR] + k.theme, l.width + [BAR] + l.theme);
    CutAtFirstBar(k.width, l.width, k.theme, l.theme);
  }

  function Shown(f: Field): string {
    match f
    case Number(n) => n
    case Text(s) => s
    case Other(shown) => shown
  }

  function TextOf(f: Field): Option<string> {
    if f.Text? then Some(f.s) else None
  }

  /** The key of an audit as it is listed; none when a part of it is of another type. */
  function KeyOf(entry: AuditEntry): Option<AuditKey> {
    if entry.point.Number? && entry.width.Number? && entry.theme.Text?
    then Some(AuditKey(entry.point.n, entry.width.n, entry.theme.s)) else None
  }

  /** What a finding looks its audit up by, whatever types its parts are of. */
  function KeyShown(entry: FindingEntry): string {
    Joined(Shown(entry.point), Shown(entry.width), Shown(entry.theme))
  }

  // -------------------------------------------------------------------- writing

  function EntryOfAudit(audit: Audit): AuditEntry {
    AuditEntry(Number(audit.key.point), Number(audit.key.width), Text(audit.key.theme), Text(audit.page))
  }

  function FieldOf(text: Option<string>): Field {
    if text.Some? then Text(text.value) else UNDEFINED
  }

  function EntryOfFinding(finding: Finding): FindingEntry {
    var flat := finding.flat;
    FindingEntry(Text(flat.rule), FieldOf(flat.impact), Text(flat.target), FieldOf(flat.path),
                 Number(flat.key.point), Number(flat.key.width), Text(flat.key.theme))
  }

  function WrittenAudits(audits: seq<Audit>): seq<AuditEntry> {
    seq(|audits|, i requires 0 <= i < |audits| => EntryOfAudit(audits[i]))
  }

  function WrittenFindings(findings: seq<Finding>): seq<FindingEntry> {
    seq(|findings|, i requires 0 <= i < |findings| => EntryOfFinding(findings[i]))
  }

  // ----------------------------------------------------------------- rebuilding

  /** The audits a record names, before any finding is put back: entries that do not name one are dropped. */
  function NamedAudits(entries: seq<AuditEntry>): seq<Audit> {
    if entries == [] then []
    else
      var rest, last := entries[..|entries| - 1], entries[|entries| - 1];
      var key := KeyOf(last);
      if key.None? then NamedAudits(rest)
      else NamedAudits(rest) + [Audit(if last.page.Text? then last.page.s else "", key.value, [])]
  }

  predicate IsLast(audits: seq<Audit>, i: nat)
    requires i < |audits|
  {
    forall j :: i < j < |audits| ==> audits[j].key != audits[i].key
  }

  predicate Readable(entry: FindingEntry) {
    entry.rule.Text? && entry.target.Text?
  }

  function ViolationOf(entry: FindingEntry): Violation
    requires Readable(entry)
  {
    Violation(entry.rule.s, TextOf(entry.impact), [Node(entry.target.s, TextOf(entry.path))])
  }

  predicate Belongs(entry: FindingEntry, key: AuditKey) {
    Readable(entry) && KeyShown(entry) == KeyText(key)
  }

  /** The violations the record's findings put back under one audit. */
  function PutBack(entries: seq<FindingEntry>, key: AuditKey): seq<Violation> {
    if entries == [] then []
    else
      var rest, last := entries[..|entries| - 1], entries[|entries| - 1];
      if Belongs(last, key) then PutBack(rest, key) + [ViolationOf(last)] else PutBack(rest, key)
  }

  /** The rebuilt audits: of several under one key the last holds every finding of that key. */
  ghost predicate Rebuilt(named: seq<Audit>, entries: seq<FindingEntry>, audits: seq<Audit>) {
    && |audits| == |named|
    && forall i :: 0 <= i < |named| ==>
         audits[i] == named[i].(violations := if IsLast(named, i) then PutBack(entries, named[i].key) else [])
  }

  /** Which of the audits each key's text leads to. */
  ghost predicate LeadsToLast(byKey: map<string, nat>, named: seq<Audit>) {
    && (forall k :: k in byKey ==> byKey[k] < |named| && KeyText(named[byKey[k]].key) == k && IsLast(named, byKey[k]))
    && (forall i :: 0 <= i < |named| ==> KeyText(named[i].key) in byKey)
  }

  lemma {:induction false} NameOneMore(byKey: map<string, nat>, named: seq<Audit>, audit: Audit)
    requires LeadsToLast(byKey, named)
    ensures LeadsToLast(byKey[KeyText(audit.key) := |named|], named + [audit])
  {
    hide KeyText;
    var more, byKey' := named + [audit], byKey[KeyText(audit.key) := |named|];
    forall k | k in byKey' ensures byKey'[k] < |more| && KeyText(more[byKey'[k]].key) == k && IsLast(more, byKey'[k]) {
      if k != KeyText(audit.key) {
        assert IsLast(named, byKey[k]);
      }
    }
  }

  lemma {:induction false} PutBackStep(entries: seq<FindingEntry>, n: nat, key: AuditKey)
    requires n < |entries|
    ensures PutBack(entries[..n + 1], key) == PutBack(entries[..n], key) + if Belongs(entries[n], key)
      then [ViolationOf(entries[n])] else []
  {
    assert entries[..n + 1][..n] == entries[..n];
  }

  /** An entry of no known audit, or one that does not read as a finding, changes nothing. */
  lemma {:induction false} PutNothingBack(named: seq<Audit>, entries: seq<FindingEntry>, audits: seq<Audit>, n: nat)
    requires n < |entries| && Rebuilt(named, entries[..n], audits)
    requires forall i :: 0 <= i < |named| ==> !Belongs(entries[n], named[i].key)
    ensures Rebuilt(named, entries[..n + 1], audits)
  {
    forall i | 0 <= i < |named| ensures PutBack(entries[..n + 1], named[i].key) == PutBack(entries[..n], named[i].key) {
      PutBackStep(entries, n, named[i].key);
    }
  }

  lemma {:induction false} PutOneBack(named: seq<Audit>, entries: seq<FindingEntry>, audits: seq<Audit>, n: nat, k: nat)
    requires n < |entries| && k < |named| && Rebuilt(named, entries[..n], audits)
    requires Belongs(entries[n], named[k].key) && IsLast(named, k)
    ensures Rebuilt(named, entries[..n + 1],
      audits[k := audits[k].(violations := audits[k].violations + [ViolationOf(entries[n])])])
  {
    hide KeyText, ViolationOf, PutBack;
    forall i | 0 <= i < |named|
      ensures PutBack(entries[..n + 1], named[i].key)
        == PutBack(entries[..n], named[i].key) + if named[i].key == named[k].key then [ViolationOf(entries[n])] else []
    {
      PutBackStep(entries, n, named[i].key);
      if Belongs(entries[n], named[i].key) {
        KeyTextsDiffer(named[i].key, named[k].key);
      }
    }
    assert forall i :: 0 <= i < |named| && i != k && IsLast(named, i) ==> named[i].key != named[k].key;
  }

  /**
   Rebuilds audits from what was listed: first the audits it names, then each finding
   into the last audit of its key.
   */
  method BaseAuditsOf(auditEntries: seq<AuditEntry>, findingEntries: seq<FindingEntry>) returns (audits: seq<Audit>)
    ensures Rebuilt(NamedAudits(auditEntries), findingEntries, audits)
  {
    hide KeyText, KeyShown, Rebuilt;
    audits := [];
    var byKey: map<string, nat> := map[];
    for n := 0 to |auditEntries|
      invariant audits == NamedAudits(auditEntries[..n])
      invariant LeadsToLast(byKey, audits)
    {
      assert auditEntries[..n + 1][..n] == auditEntries[..n];
      var entry := auditEntries[n];
      var key := KeyOf(entry);
      if key.Some? {
        var audit := Audit(if entry.page.Text? then entry.page.s else "", key.value, []);
        NameOneMore(byKey, audits, audit);
        byKey := byKey[KeyText(key.value) := |audits|];
        audits := audits + [audit];
      }
    }
    assert auditEntries[..|auditEntries|] == auditEntries;
    ghost var named := audits;
    NamedAreRebuilt(auditEntries, findingEntries);
    for n := 0 to |findingEntries|
      invariant |audits| == |named| && Rebuilt(named, findingEntries[..n], audits)
    {
      var entry := findingEntries[n];
      var key := KeyShown(entry);
      if key !in byKey || !Readable(entry) {
        PutNothingBack(named, findingEntries, audits, n);
      } else {
        var k := byKey[key];
        PutOneBack(named, findingEntries, audits, n, k);
        audits := audits[k := audits[k].(violations := audits[k].violations + [ViolationOf(entry)])];
      }
    }
    assert findingEntries[..|findingEntries|] == findingEntries;
  }

  lemma {:induction false} NamedAreRebuilt(entries: seq<AuditEntry>, findings: seq<FindingEntry>)
    ensures Rebuilt(NamedAudits(entries), findings[..0], NamedAudits(entries))
  {
    NamedAreEmpty(entries);
  }

  lemma {:induction false} NamedAreEmpty(entries: seq<AuditEntry>)
    ensures forall i :: 0 <= i < |NamedAudits(entries)| ==> NamedAudits(entries)[i].violations == []
  {
    if entries != [] {
      NamedAreEmpty(entries[..|entries| - 1]);
    }
  }

  lemma {:induction false} NamedJoin(entries: seq<AuditEntry>, more: seq<AuditEntry>)
    ensures NamedAudits(entries + more) == NamedAudits(entries) + NamedAudits(more)
    decreases |more|
  {
    if more == [] {
      assert entries + more == entries;
    } else {
      var n := |more| - 1;
      assert (entries + more)[..|entries + more| - 1] == entries + more[..n];
      NamedJoin(entries, more[..n]);
      hide KeyOf;
    }
  }

  lemma {:induction false} PutBackJoin(entries: seq<FindingEntry>, more: seq<FindingEntry>, key: AuditKey)
    ensures PutBack(entries + more, key) == PutBack(entries, key) + PutBack(more, key)
    decreases |more|
  {
    if more == [] {
      assert entries + more == entries;
    } else {
      var n := |more| - 1;
      assert (entries + more)[..|entries + more| - 1] == entries + more[..n];
      PutBackJoin(entries, more[..n], key);
      hide Belongs, ViolationOf;
    }
  }

  /**
   What a record's lists name, entry by entry in their order. An audit is named by two
   numbers and a text, with its page where that is a text; and of a finding whose rule and
   target are texts one violation is put back under the audit whose joined key its own
   parts read as, with the impact and the path that are texts.
   */
  lemma {:induction false} EntriesAreRead(entry: AuditEntry, entries: seq<AuditEntry>, listed: FindingEntry,
      findings: seq<FindingEntry>, key: AuditKey)
    ensures NamedAudits([]) == [] && NamedAudits([entry] + entries) == (match entry
      case AuditEntry(Number(point), Number(width), Text(theme), page) =>
        [Audit(match page case Text(s) => s case _ => "", AuditKey(point, width, theme), [])]
      case _ => []) + NamedAudits(entries)
    ensures PutBack([], key) == [] && PutBack([listed] + findings, key) == (match listed
      case FindingEntry(Text(rule), impact, Text(target), path, point, width, theme) =>
        if Shown(point) + "|" + Shown(width) + "|" + Shown(theme) == key.point + "|" + key.width + "|" + key.theme
        then [Violation(rule, match impact case Text(s) => Some(s) case _ => None,
          [Node(target, match path case Text(s) => Some(s) case _ => None)])]
        else []
      case _ => []) + PutBack(findings, key)
  {
    NamedJoin([entry], entries);
    PutBackJoin([listed], findings, key);
    assert [entry][..0] == [] && [listed][..0] == [];
    OneKeyText(key.point, key.width, key.theme);
    OneKeyText(Shown(listed.point), Shown(listed.width), Shown(listed.theme));
  }

  lemma {:induction false} OneKeyText(point: string, width: string, theme: string)
    ensures Joined(point, width, theme) == point + "|" + width + "|" + theme
  {
    assert [BAR] == "|";
    Associates(point + "|", width + "|", theme);
    Associates(point + "|", width, "|");
  }

  // --------------------------------------------------------------- the round trip

  /** Whether a finding as it is listed is of an identity. */
  predicate IsOf(entry: FindingEntry, id: Identity) {
    && Belongs(entry, id.audit)
    && entry.rule.s == id.rule && TextOf(entry.path) == id.path && entry.target.s == id.target
  }

  /** How many of the findings listed are of an identity. */
  function Listings(entries: seq<FindingEntry>, id: Identity): nat {
    if entries == [] then 0 else Listings(entries[..|entries| - 1], id) + if IsOf(entries[|entries| - 1], id) then 1
    else 0
  }

  lemma {:induction false} IdentitiesAppend(a: seq<Flat>, b: seq<Flat>)
    ensures Identities(a + b) == Identities(a) + Identities(b)
  {
  }

  lemma {:induction false} FlatOneMore(audit: Audit, before: seq<Violation>, entry: FindingEntry)
    requires Belongs(entry, audit.key)
    ensures Identities(FlatViolations(audit, before + [ViolationOf(entry)]))
      == Identities(FlatViolations(audit, before))
        + [Identity(audit.key, entry.rule.s, TextOf(entry.path), entry.target.s)]
  {
    hide KeyShown, KeyText;
    var violation := ViolationOf(entry);
    assert violation.nodes[..0] == [];
    assert FlatNodes(audit, violation, violation.nodes) == [FlatOf(audit, violation, violation.nodes[0])];
    assert (before + [violation])[..|before|] == before;
    IdentitiesAppend(FlatViolations(audit, before), FlatNodes(audit, violation, violation.nodes));
  }

  /** Every finding of a key is put back under its audit as often as the record lists it. */
  lemma {:induction false} PutBackKeepsCounts(audit: Audit, entries: seq<FindingEntry>, id: Identity)
    requires id.audit == audit.key
    ensures multiset(Identities(FlatViolations(audit, PutBack(entries, audit.key))))[id] == Listings(entries, id)
  {
    if entries != [] {
      var rest, last := entries[..|entries| - 1], entries[|entries| - 1];
      PutBackKeepsCounts(audit, rest, id);
      if Belongs(last, audit.key) {
        FlatOneMore(audit, PutBack(rest, audit.key), last);
      }
    }
  }

  /** What one rebuilt audit contributes: everything of its key when it is the last under it, and nothing else. */
  lemma {:induction false} CountInAudit(named: seq<Audit>, entries: seq<FindingEntry>, audits: seq<Audit>,
      k: nat, id: Identity)
    requires Rebuilt(named, entries, audits) && k < |audits|
    ensures multiset(Identities(FlatViolations(audits[k], audits[k].violations)))[id]
      == if named[k].key == id.audit && IsLast(named, k) then Listings(entries, id) else 0
  {
    var audit := audits[k];
    if audit.key != id.audit {
      ViolationsKeepKey(audit, audit.violations);
      NothingInBase(Identities(FlatViolations(audit, audit.violations)), id);
    } else if IsLast(named, k) {
      PutBackKeepsCounts(audit, entries, id);
    }
  }

  ghost predicate LastAmong(named: seq<Audit>, n: nat, key: AuditKey)
    requires n <= |named|
  {
    exists i :: 0 <= i < n && named[i].key == key && IsLast(named, i)
  }

  lemma {:induction false} CountsAppend(a: seq<Flat>, b: seq<Flat>, id: Identity)
    ensures multiset(Identities(a + b))[id] == multiset(Identities(a))[id] + multiset(Identities(b))[id]
  {
    IdentitiesAppend(a, b);
  }

  lemma {:induction false} AuditOneMore(audits: seq<Audit>, n: nat, id: Identity)
    requires n < |audits|
    ensures multiset(Identities(FlatAudits(audits[..n + 1])))[id]
      == multiset(Identities(FlatAudits(audits[..n])))[id]
         + multiset(Identities(FlatViolations(audits[n], audits[n].violations)))[id]
  {
    hide Identities, FlatViolations;
    assert audits[..n + 1][..n] == audits[..n];
    CountsAppend(FlatAudits(audits[..n]), FlatViolations(audits[n], audits[n].violations), id);
  }

  lemma {:induction false} RebuiltKeepsCounts(named: seq<Audit>, entries: seq<FindingEntry>,
      audits: seq<Audit>, n: nat, id: Identity)
    requires Rebuilt(named, entries, audits) && n <= |audits|
    ensures multiset(Identities(FlatAudits(audits[..n])))[id]
      == if LastAmong(named, n, id.audit) then Listings(entries, id) else 0
  {
    hide Identities, FlatViolations, Listings, IsLast;
    if n > 0 {
      RebuiltKeepsCounts(named, entries, audits, n - 1, id);
      AuditOneMore(audits, n - 1, id);
      CountInAudit(named, entries, audits, n - 1, id);
      LastAmongOneMore(named, n - 1, id.audit);
    } else {
      NothingIn(audits, id);
    }
  }

  lemma {:induction false} NothingIn(audits: seq<Audit>, id: Identity)
    ensures multiset(Identities(FlatAudits(audits[..0])))[id] == 0
  {
    assert audits[..0] == [];
  }

  lemma {:induction false} LastAmongOneMore(named: seq<Audit>, n: nat, key: AuditKey)
    requires n < |named|
    ensures LastAmong(named, n + 1, key) <==> LastAmong(named, n, key) || (named[n].key == key && IsLast(named, n))
    ensures named[n].key == key && IsLast(named, n) ==> !LastAmong(named, n, key)
  {
  }

  lemma {:induction false} SomeAuditIsLast(named: seq<Audit>, i: nat)
    requires i < |named|
    ensures LastAmong(named, |named|, named[i].key)
    decreases |named| - i
  {
    if !IsLast(named, i) {
      var j :| i < j < |named| && named[j].key == named[i].key;
      SomeAuditIsLast(named, j);
    }
  }

  lemma {:induction false} WrittenAuditsAreNamed(audits: seq<Audit>)
    ensures var named := NamedAudits(WrittenAudits(audits));
      |named| == |audits| && forall i :: 0 <= i < |audits| ==> named[i] == audits[i].(violations := [])
  {
    if audits != [] {
      var n := |audits| - 1;
      WrittenAuditsAreNamed(audits[..n]);
      assert WrittenAudits(audits)[..n] == WrittenAudits(audits[..n]);
    }
  }

  lemma {:induction false} WrittenIsOf(finding: Finding, id: Identity)
    ensures IsOf(EntryOfFinding(finding), id) <==> IdentityOf(finding.flat) == id
  {
    hide KeyText, Joined;
    var key := finding.flat.key;
    assert KeyShown(EntryOfFinding(finding)) == KeyText(key) by {
      ShownIsText(key);
    }
    if KeyText(key) == KeyText(id.audit) {
      KeyTextsDiffer(key, id.audit);
    }
  }

  lemma {:induction false} ShownIsText(key: AuditKey)
    ensures Joined(Shown(Number(key.point)), Shown(Number(key.width)), Shown(Text(key.theme))) == KeyText(key)
  {
  }

  lemma {:induction false} FlatOneMoreCounts(flats: seq<Flat>, id: Identity)
    requires flats != []
    ensures var n := |flats| - 1;
      multiset(Identities(flats))[id] == multiset(Identities(flats[..n]))[id] + if IdentityOf(flats[n]) == id then 1
        else 0
  {
    var n := |flats| - 1;
    OneMoreCounts(Identities(flats[..n]), IdentityOf(flats[n]), id);
    assert Identities(flats) == Identities(flats[..n]) + [IdentityOf(flats[n])];
  }

  lemma {:induction false} WrittenFindingsKeepIds(findings: seq<Finding>, flats: seq<Flat>, id: Identity)
    requires |findings| == |flats| && forall i :: 0 <= i < |flats| ==> findings[i].flat == flats[i]
    ensures Listings(WrittenFindings(findings), id) == multiset(Identities(flats))[id]
  {
    hide IsOf, EntryOfFinding, IdentityOf, Identities;
    if flats != [] {
      var n := |flats| - 1;
      WrittenFindingsKeepIds(findings[..n], flats[..n], id);
      WrittenIsOf(findings[n], id);
      FlatOneMoreCounts(flats, id);
      assert WrittenFindings(findings)[..n] == WrittenFindings(findings[..n]);
    }
  }

  lemma {:induction false} NothingMadeUnder(made: seq<Audit>, id: Identity)
    requires forall i :: 0 <= i < |made| ==> made[i].key != id.audit
    ensures multiset(Identities(FlatAudits(made)))[id] == 0
  {
    assert id.audit !in AuditedKeys(made);
    BaseIsAudited(made);
    NothingInBase(Identities(FlatAudits(made)), id);
  }

  lemma {:induction false} RebuiltCount(named: seq<Audit>, entries: seq<FindingEntry>, audits: seq<Audit>, id: Identity)
    requires Rebuilt(named, entries, audits)
    ensures multiset(Identities(FlatAudits(audits)))[id]
      == if LastAmong(named, |named|, id.audit) then Listings(entries, id) else 0
  {
    assert audits[..|audits|] == audits;
    RebuiltKeepsCounts(named, entries, audits, |audits|, id);
  }

  lemma {:induction false} RebuiltCountIsMadeCount(made: seq<Audit>, named: seq<Audit>,
      entries: seq<FindingEntry>, audits: seq<Audit>, id: Identity)
    requires Listings(entries, id) == multiset(Identities(FlatAudits(made)))[id] && Rebuilt(named, entries, audits)
    requires |named| == |made| && forall i :: 0 <= i < |made| ==> named[i].key == made[i].key
    ensures multiset(Identities(FlatAudits(audits)))[id] == multiset(Identities(FlatAudits(made)))[id]
  {
    RebuiltCount(named, entries, audits, id);
    if i :| 0 <= i < |made| && made[i].key == id.audit {
      SomeAuditIsLast(named, i);
    } else {
      NothingMadeUnder(made, id);
    }
  }

  /**
   Any audits rebuilt from the record of a base side audit the same pages and hold the
   same violations as the audits it made.
   */
  lemma {:induction false} RebuiltIsWhatWasAudited(made: seq<Audit>, findings: seq<Finding>, audits: seq<Audit>)
    requires |findings| == |FlatAudits(made)| && forall i :: 0 <= i < |findings| ==>
      findings[i].flat == FlatAudits(made)[i]
    requires Rebuilt(NamedAudits(WrittenAudits(made)), WrittenFindings(findings), audits)
    ensures AuditedKeys(audits) == AuditedKeys(made)
    ensures multiset(Identities(FlatAudits(audits))) == multiset(Identities(FlatAudits(made)))
  {
    WrittenAuditsAreNamed(made);
    KeysAlike(audits, made);
    KeysAlike(made, audits);
    forall id ensures multiset(Identities(FlatAudits(audits)))[id] == multiset(Identities(FlatAudits(made)))[id] {
      WrittenFindingsKeepIds(findings, FlatAudits(made), id);
      RebuiltCountIsMadeCount(made, NamedAudits(WrittenAudits(made)), WrittenFindings(findings), audits, id);
    }
  }

  lemma {:induction false} KeysAlike(audits: seq<Audit>, audits': seq<Audit>)
    requires |audits| == |audits'| && forall i :: 0 <= i < |audits| ==> audits[i].key == audits'[i].key
    ensures AuditedKeys(audits) <= AuditedKeys(audits')
  {
    forall k | k in AuditedKeys(audits) ensures k in AuditedKeys(audits') {
      var i :| 0 <= i < |audits| && audits[i].key == k;
      assert audits'[i].key == k;
    }
  }

  /**
   The round trip of a base side: whatever its profile, the head holds its
   violations against the rebuilt audits exactly as it would have held them
   against the audits the base made.
   */
  lemma {:induction false} RecordKeepsEveryStatus(made: seq<Audit>, baseConfig: Config, audits: seq<Audit>,
      head: seq<Flat>, config: Config)
    requires Rebuilt(NamedAudits(WrittenAudits(made)),
      WrittenFindings(Findings(FlatAudits(made), baseConfig, BaseSide)), audits)
    ensures Findings(head, config, BaseAudits(audits)) == Findings(head, config, BaseAudits(made))
  {
    RebuiltIsWhatWasAudited(made, Findings(FlatAudits(made), baseConfig, BaseSide), audits);
    SameBaseSameStatuses(head, config, audits, made);
  }

  /** The method and the lemma together: what the head side reads back decides as the original audits would. */
  method ReadBack(made: seq<Audit>, ghost baseConfig: Config, findings: seq<Finding>, head: seq<Audit>, config: Config)
    returns (decision: Decision)
    requires findings == Findings(FlatAudits(made), baseConfig, BaseSide)
    ensures decision.findings == Findings(FlatAudits(head), config, BaseAudits(made))
    ensures decision.outcome == OutcomeOf(Tally(decision.findings))
  {
    var audits := BaseAuditsOf(WrittenAudits(made), WrittenFindings(findings));
    decision := DecideA11y(head, config, BaseAudits(audits));
    RecordKeepsEveryStatus(made, baseConfig, audits, FlatAudits(head), config);
  }
}
