/**
 The gate of a contained build: what it answers a request, what it dials, and the
 capped record it keeps of where the build reached for. A request's host is what
 `hostName` made of it, and declarations are normalised the way hosts are.
 */
module CellGate {
  import opened Prelude
  import opened CellWire

  type Name = Bytes

  datatype App = App(host: Name, port: nat, dialPort: Option<nat>)

  datatype StubPort = StubPort(host: Name, port: nat)

  datatype Mapping = Mapping(key: Name, target: Name)

  datatype Config = Config(
    hosts: seq<Name>,
    mappings: seq<Mapping>,
    carried: map<nat, string>,
    stubPorts: seq<StubPort>,
    app: Option<App>,
    maxEntries: nat)

  datatype Request = Resolve(host: Option<Name>) | Connect(host: Option<Name>, port: nat) | Malformed

  datatype Key = Key(host: Name, port: nat, protocol: string)

  /** What the gate does with a request. `Refuse` and `Dial` are recorded, the others are not. */
  datatype Decision = Drop | Allow | Refuse(key: Key) | Dial(key: Key, target: Name, port: nat)

  const UNKNOWN: Name := [0x75, 0x6e, 0x6b, 0x6e, 0x6f, 0x77, 0x6e]
  const STAR_DOT: Name := [0x2a, DOT]
  const DNS := "dns"
  const TCP := "tcp"

  // --------------------------------------------------------------------- matching

  predicate EndsWith(s: Name, suffix: Name) {
    |suffix| <= |s| && s[|s| - |suffix|..] == suffix
  }

  /** A declared host is one name, or with `*.` before it every name one label longer. */
  predicate Matches(host: Name, pattern: Name) {
    if |pattern| >= 2 && pattern[..2] == STAR_DOT then
      var suffix := pattern[1..];
      EndsWith(host, suffix) && |host| > |suffix| && DOT !in host[..|host| - |suffix|]
    else host == pattern
  }

  /** A wildcard matches exactly the names made of one label and what follows the star. */
  lemma {:induction false} WildcardIsOneLabel(host: Name, rest: Name)
    ensures Matches(host, STAR_DOT + rest)
      <==> exists first: Name :: first != [] && DOT !in first && host == first + [DOT] + rest
  {
    var pattern, suffix := STAR_DOT + rest, [DOT] + rest;
    assert pattern[..2] == STAR_DOT && pattern[1..] == suffix;
    if Matches(host, pattern) {
      var first := host[..|host| - |suffix|];
      assert host == first + suffix == first + [DOT] + rest;
    }
    if first: Name :| first != [] && DOT !in first && host == first + [DOT] + rest {
      assert host == first + suffix;
      assert host[|host| - |suffix|..] == suffix && host[..|host| - |suffix|] == first;
    }
  }

  predicate MatchesAny(host: Name, patterns: seq<Name>) {
    exists i :: 0 <= i < |patterns| && Matches(host, patterns[i])
  }

  predicate Declared(c: Config, host: Name) {
    MatchesAny(host, c.hosts)
  }

  function FirstExact(mappings: seq<Mapping>, host: Name): Option<Name> {
    if mappings == [] then None
    else if mappings[0].key == host then Some(mappings[0].target)
    else FirstExact(mappings[1..], host)
  }

  function FirstPattern(mappings: seq<Mapping>, host: Name): Option<Name> {
    if mappings == [] then None
    else if |mappings[0].key| >= 2 && mappings[0].key[..2] == STAR_DOT && Matches(host, mappings[0].key)
      then Some(mappings[0].target)
    else FirstPattern(mappings[1..], host)
  }

  /** The name a declared host is dialled as: its own mapping, a pattern's, or itself. */
  function DialAs(c: Config, host: Name): Name {
    match FirstExact(c.mappings, host)
    case Some(target) => target
    case None =>
      match FirstPattern(c.mappings, host)
      case Some(target) => target
      case None => host
  }

  predicate StubDeclares(c: Config, host: Name, port: nat) {
    || port == 80 || port == 443
    || exists i :: 0 <= i < |c.stubPorts| && c.stubPorts[i].port == port && Matches(host, c.stubPorts[i].host)
  }

  predicate IsApp(c: Config, host: Name) {
    c.app.Some? && c.app.value.host == host
  }

  // --------------------------------------------- what may be reached, name by name

  /** A pattern of one star and what follows it covers every name of one label before that. */
  ghost predicate Covers(pattern: Name, host: Name) {
    exists first: Name, rest: Name ::
      pattern == STAR_DOT + rest && first != [] && DOT !in first && host == first + [DOT] + rest
  }

  ghost predicate Starred(pattern: Name) {
    exists rest: Name :: pattern == STAR_DOT + rest
  }

  /** A name stands in a list of declarations: literally and with no star, or covered by one that has one. */
  ghost predicate Named(host: Name, patterns: seq<Name>) {
    exists i :: 0 <= i < |patterns| && ((patterns[i] == host && !Starred(host)) || Covers(patterns[i], host))
  }

  ghost predicate FirstKeyed(mappings: seq<Mapping>, host: Name, m: int) {
    0 <= m < |mappings| && mappings[m].key == host && forall k :: 0 <= k < m ==> mappings[k].key != host
  }

  ghost predicate FirstCovering(mappings: seq<Mapping>, host: Name, m: int) {
    0 <= m < |mappings| && Covers(mappings[m].key, host) && forall k :: 0 <= k < m ==> !Covers(mappings[k].key, host)
  }

  lemma {:induction false} StarredBegins(pattern: Name)
    ensures Starred(pattern) <==> |pattern| >= 2 && pattern[..2] == STAR_DOT
  {
    if |pattern| >= 2 && pattern[..2] == STAR_DOT {
      assert pattern == STAR_DOT + pattern[2..];
    }
  }

  lemma {:induction false} MatchesIs(host: Name, pattern: Name)
    ensures Matches(host, pattern) <==> (pattern == host && !Starred(host)) || Covers(pattern, host)
    ensures Starred(pattern) ==> (Matches(host, pattern) <==> Covers(pattern, host))
    ensures Covers(pattern, host) ==> Starred(pattern)
  {
    StarredBegins(pattern);
    if rest: Name :| pattern == STAR_DOT + rest {
      WildcardIsOneLabel(host, rest);
      assert forall other: Name :: pattern == STAR_DOT + other ==> pattern[2..] == other;
    }
  }

  lemma {:induction false} MatchesAnyIsNamed(host: Name, patterns: seq<Name>)
    ensures MatchesAny(host, patterns) <==> Named(host, patterns)
  {
    forall i | 0 <= i < |patterns|
      ensures Matches(host, patterns[i])
        <==> (patterns[i] == host && !Starred(host)) || Covers(patterns[i], host)
    {
      MatchesIs(host, patterns[i]);
    }
    hide Matches, Covers, Starred;
  }

  lemma {:induction false} FirstExactIs(mappings: seq<Mapping>, host: Name)
    ensures FirstExact(mappings, host).None? <==> forall m :: 0 <= m < |mappings| ==> mappings[m].key != host
    ensures forall m :: FirstKeyed(mappings, host, m) ==> FirstExact(mappings, host) == Some(mappings[m].target)
  {
    if mappings != [] {
      FirstExactIs(mappings[1..], host);
      assert forall m :: 1 <= m < |mappings| ==> mappings[m] == mappings[1..][m - 1];
      forall m | FirstKeyed(mappings, host, m) && m > 0 ensures FirstKeyed(mappings[1..], host, m - 1) {
      }
    }
  }

  lemma {:induction false} FirstPatternIs(mappings: seq<Mapping>, host: Name)
    ensures FirstPattern(mappings, host).None? <==> forall m :: 0 <= m < |mappings| ==> !Covers(mappings[m].key, host)
    ensures forall m :: FirstCovering(mappings, host, m) ==> FirstPattern(mappings, host) == Some(mappings[m].target)
  {
    if mappings != [] {
      FirstPatternIs(mappings[1..], host);
      StarredBegins(mappings[0].key);
      MatchesIs(host, mappings[0].key);
      hide Covers, Matches, Starred;
      assert forall m :: 1 <= m < |mappings| ==> mappings[m] == mappings[1..][m - 1];
      forall m | FirstCovering(mappings, host, m) && m > 0 ensures FirstCovering(mappings[1..], host, m - 1) {
      }
    }
  }

  /**
   The name a host is dialled as: what the first mapping of the very host says; where
   there is none, what the first mapping of a pattern that covers it says; and else its own.
   */
  lemma {:induction false} DialledAs(c: Config, host: Name)
    ensures forall m :: FirstKeyed(c.mappings, host, m) ==> DialAs(c, host) == c.mappings[m].target
    ensures (forall k :: 0 <= k < |c.mappings| ==> c.mappings[k].key != host) ==>
      && (forall m :: FirstCovering(c.mappings, host, m) ==> DialAs(c, host) == c.mappings[m].target)
      && ((forall k :: 0 <= k < |c.mappings| ==> !Covers(c.mappings[k].key, host)) ==> DialAs(c, host) == host)
  {
    hide Covers;
    FirstExactIs(c.mappings, host);
    FirstPatternIs(c.mappings, host);
  }

  /** The ports a stub answers on: the two web ports, and those it declares for the name. */
  ghost predicate StubListens(c: Config, host: Name, port: nat) {
    || port == 80 || port == 443
    || exists i :: 0 <= i < |c.stubPorts| && c.stubPorts[i].port == port && Named(host, [c.stubPorts[i].host])
  }

  lemma {:induction false} StubAnswersOn(c: Config, host: Name, port: nat)
    ensures StubDeclares(c, host, port) <==> StubListens(c, host, port)
  {
    forall i | 0 <= i < |c.stubPorts|
      ensures Matches(host, c.stubPorts[i].host) <==> Named(host, [c.stubPorts[i].host])
    {
      MatchesAnyIsNamed(host, [c.stubPorts[i].host]);
      assert [c.stubPorts[i].host][0] == c.stubPorts[i].host;
    }
  }

  // ------------------------------------------------------------------ the decision

  function Port(raw: nat): nat {
    if 0 < raw < 65_536 then raw else 0
  }

  function Or(protocol: Option<string>, otherwise: string): string {
    if protocol.Some? then protocol.value else otherwise
  }

  function ProtocolOf(c: Config, port: nat): Option<string> {
    if port in c.carried then Some(c.carried[port]) else None
  }

  function NameOr(host: Option<Name>): Name {
    if host.Some? then host.value else UNKNOWN
  }

  function DecideConnect(c: Config, host: Option<Name>, port: nat): Decision {
    var protocol := ProtocolOf(c, port);
    if host.None? || !Declared(c, host.value) then Refuse(Key(NameOr(host), port, Or(protocol, TCP)))
    else
      var name := host.value;
      var dialled := DialAs(c, name);
      if IsApp(c, name) && port != c.app.value.port then Refuse(Key(name, port, Or(protocol, TCP)))
      else if !IsApp(c, name) && dialled != name && !StubDeclares(c, name, port) then Refuse(Key(name, port, TCP))
      else if protocol.None? && dialled == name then Refuse(Key(name, port, TCP))
      else
        var named := if IsApp(c, name) || dialled == name || port == 80 || port == 443 then Or(protocol, TCP) else TCP;
        Dial(Key(name, port, named), dialled, if IsApp(c, name) && c.app.value.dialPort.Some?
          then c.app.value.dialPort.value else port)
  }

  function Decide(c: Config, r: Request): Decision {
    match r
    case Malformed => Drop
    case Resolve(host) =>
      if host.Some? && Declared(c, host.value) then Allow else Refuse(Key(NameOr(host), 53, DNS))
    case Connect(host, raw) => DecideConnect(c, host, Port(raw))
  }

  /**
   Where a host may be dialled, once it is declared: the app on its published port
   alone, a mapped stub on the gate's own two ports and those it declares, any other
   host on a carried port.
   */
  ghost predicate MayDial(c: Config, host: Name, port: nat) {
    && Named(host, c.hosts)
    && if IsApp(c, host) then port == c.app.value.port && (DialAs(c, host) != host || port in c.carried)
       else if DialAs(c, host) != host then StubListens(c, host, port)
       else port in c.carried
  }

  /**
   The gate dials exactly where it may, a declared host and no other, under the name
   and at the port the run gave it. A host is declared that stands among the declared
   ones letter for letter, or as one label before what a star stands before.
   */
  lemma {:induction false} DialsExactlyWhereItMay(c: Config, r: Request)
    ensures Decide(c, r).Dial? <==> r.Connect? && r.host.Some? && MayDial(c, r.host.value, Port(r.port))
    ensures Decide(c, r).Dial? ==> var d := Decide(c, r);
      && d.key.host == r.host.value && d.key.port == Port(r.port)
      && d.target == DialAs(c, r.host.value)
      && (d.port != Port(r.port) ==> IsApp(c, r.host.value) && c.app.value.dialPort == Some(d.port))
      && (IsApp(c, r.host.value) && c.app.value.dialPort.Some? ==> d.port == c.app.value.dialPort.value)
  {
    hide MatchesAny, Named, DialAs, StubDeclares, StubListens;
    if r.Connect? && r.host.Some? {
      MatchesAnyIsNamed(r.host.value, c.hosts);
      StubAnswersOn(c, r.host.value, Port(r.port));
    }
  }

  /**
   What a connection is recorded as the port carries it: a refusal of the app or of no
   declared host, and a dial of the app, of a host by its own name, or at a web port.
   */
  ghost predicate KnownAsCarried(c: Config, host: Option<Name>, port: nat, dialled: bool) {
    if !dialled then host.None? || !Named(host.value, c.hosts) || IsApp(c, host.value)
    else host.Some? && (IsApp(c, host.value) || DialAs(c, host.value) == host.value || port == 80 || port == 443)
  }

  /**
   A lookup is allowed exactly for a declared host, and is never dialled; and whatever
   is recorded is recorded under what was asked for.
   */
  lemma {:induction false} RecordedAsAsked(c: Config, r: Request)
    ensures Decide(c, r).Drop? <==> r.Malformed?
    ensures Decide(c, r).Allow? <==> r.Resolve? && r.host.Some? && Named(r.host.value, c.hosts)
    ensures Decide(c, r).Refuse? || Decide(c, r).Dial? ==> var key := Decide(c, r).key;
      && key.host == NameOr(r.host) && key.port == (if r.Resolve? then 53 else Port(r.port))
      && (r.Resolve? ==> key.protocol == DNS)
      && (r.Connect? ==>
        key.protocol == if KnownAsCarried(c, r.host, key.port, Decide(c, r).Dial?) then Or(ProtocolOf(c, key.port), TCP)
        else TCP)
  {
    hide MatchesAny, Named, DialAs, StubDeclares;
    if !r.Malformed? && r.host.Some? {
      MatchesAnyIsNamed(r.host.value, c.hosts);
    }
  }

  // -------------------------------------------------------------------- the record

  datatype Entry = Entry(key: Key, declared: bool, count: nat)

  /** What was recorded of a decision: where to, and whether the gate dialled. */
  datatype Recorded = Recorded(key: Key, declared: bool)

  function RecordOf(d: Decision): seq<Recorded> {
    match d
    case Refuse(key) => [Recorded(key, false)]
    case Dial(key, _, _) => [Recorded(key, true)]
    case _ => []
  }

  /** Every decision of a run of requests that is to be recorded, in order. */
  function RecordedOf(c: Config, requests: seq<Request>): seq<Recorded> {
    if requests == [] then []
    else RecordedOf(c, requests[..|requests| - 1]) + RecordOf(Decide(c, requests[|requests| - 1]))
  }

  function Place(reached: seq<Entry>, key: Key): (i: nat)
    ensures i <= |reached|
    ensures i < |reached| ==> reached[i].key == key
    ensures i == |reached| ==> forall k :: 0 <= k < |reached| ==> reached[k].key != key
  {
    if reached == [] || reached[0].key == key then 0 else 1 + Place(reached[1..], key)
  }

  function Times(log: seq<Recorded>, key: Key): nat {
    if log == [] then 0 else Times(log[..|log| - 1], key) + if log[|log| - 1].key == key then 1 else 0
  }

  function DialsIn(log: seq<Recorded>): nat {
    if log == [] then 0 else DialsIn(log[..|log| - 1]) + if log[|log| - 1].declared then 1 else 0
  }

  function AllCounts(reached: seq<Entry>): nat {
    if reached == [] then 0 else AllCounts(reached[..|reached| - 1]) + reached[|reached| - 1].count
  }

  function DeclaredCounts(reached: seq<Entry>): nat {
    if reached == [] then 0
    else DeclaredCounts(reached[..|reached| - 1]) + if reached[|reached| - 1].declared then reached[|reached| - 1].count
      else 0
  }

  ghost predicate DistinctKeys(reached: seq<Entry>) {
    forall i, j :: 0 <= i < j < |reached| ==> reached[i].key != reached[j].key
  }

  /** One destination more, or one count more of a destination there is. */
  function Noted(reached: seq<Entry>, r: Recorded, maxEntries: nat): seq<Entry> {
    var i := Place(reached, r.key);
    if i < |reached| then reached[i := reached[i].(count := reached[i].count + 1)]
    else if |reached| >= maxEntries then reached
    else reached + [Entry(r.key, r.declared, 1)]
  }

  /** The record that is left when decisions are noted one after another. */
  function Notes(log: seq<Recorded>, maxEntries: nat): seq<Entry> {
    if log == [] then [] else Noted(Notes(log[..|log| - 1], maxEntries), log[|log| - 1], maxEntries)
  }

  lemma {:induction false} NotesOneMore(log: seq<Recorded>, r: Recorded, maxEntries: nat)
    ensures Notes(log + [r], maxEntries) == Noted(Notes(log, maxEntries), r, maxEntries)
  {
    assert (log + [r])[..|log|] == log;
  }

  /** Whether a destination was dropped because the record was full. */
  predicate Drops(reached: seq<Entry>, r: Recorded, maxEntries: nat) {
    Place(reached, r.key) == |reached| && |reached| >= maxEntries
  }

  lemma {:induction false} HasDistinctKeys(reached: seq<Entry>, log: seq<Recorded>, maxEntries: nat)
    ensures True(reached, log, maxEntries) ==> DistinctKeys(reached)
  {
  }

  class Gate {
    const config: Config
    var reached: seq<Entry>
    var capped: bool
    /** Every decision there was to record, kept or not, and every dial made. */
    ghost var log: seq<Recorded>
    ghost var dials: nat

    ghost predicate Valid()
      reads this
    {
      && reached == Notes(log, config.maxEntries)
      && True(reached, log, config.maxEntries)
      && dials == DialsIn(log)
      && (capped <==> Misses(reached, log))
    }

    constructor (config: Config)
      ensures Valid() && this.config == config && reached == [] && log == [] && !capped
    {
      this.config := config;
      reached, capped, log, dials := [], false, [], 0;
    }

    method Record(key: Key, declared: bool)
      requires DistinctKeys(reached)
      modifies `reached, `capped
      ensures reached == Noted(old(reached), Recorded(key, declared), config.maxEntries)
      ensures capped <==> old(capped) || Drops(old(reached), Recorded(key, declared), config.maxEntries)
    {
      var i := Place(reached, key);
      if i < |reached| {
        reached := reached[i := reached[i].(count := reached[i].count + 1)];
        return;
      }
      if |reached| >= config.maxEntries {
        capped := true;
        return;
      }
      reached := reached + [Entry(key, declared, 1)];
    }

    /** Answers one request. */
    method Handle(request: Request) returns (d: Decision)
      requires Valid()
      modifies this
      ensures Valid() && d == Decide(config, request)
      ensures log == old(log) + RecordOf(d)
    {
      hide True, Misses, DialsIn, Noted, Drops, DecideConnect, Place, Notes;
      HasDistinctKeys(reached, log, config.maxEntries);
      d := Decide(config, request);
      match d
      case Drop => assert log + RecordOf(d) == log;
      case Allow => assert log + RecordOf(d) == log;
      case Refuse(key) =>
        NotedKeeps(reached, log, Recorded(key, false), config.maxEntries);
        NotesOneMore(log, Recorded(key, false), config.maxEntries);
        Record(key, false);
        log := log + [Recorded(key, false)];
      case Dial(key, target, port) =>
        NotedKeeps(reached, log, Recorded(key, true), config.maxEntries);
        NotesOneMore(log, Recorded(key, true), config.maxEntries);
        Record(key, true);
        log := log + [Recorded(key, true)];
        dials := dials + 1;
    }
  }

  /** The flag of the first decision recorded of a destination. */
  function FirstFlag(log: seq<Recorded>, key: Key): Option<bool> {
    if log == [] then None
    else if FirstFlag(log[..|log| - 1], key).Some? then FirstFlag(log[..|log| - 1], key)
    else if log[|log| - 1].key == key then Some(log[|log| - 1].declared)
    else None
  }

  /** Every decision of one destination went the same way. */
  ghost predicate FlagsAgree(log: seq<Recorded>) {
    forall i, j :: 0 <= i < |log| && 0 <= j < |log| && log[i].key == log[j].key ==> log[i].declared == log[j].declared
  }

  /** Some destination that was decided on is not in the record. */
  ghost predicate Misses(reached: seq<Entry>, log: seq<Recorded>) {
    exists k :: 0 <= k < |log| && Place(reached, log[k].key) == |reached|
  }

  /** The record is within its bound and true of what it holds, and holds everything until it is full. */
  ghost predicate True(reached: seq<Entry>, log: seq<Recorded>, maxEntries: nat) {
    && DistinctKeys(reached)
    && |reached| <= maxEntries
    && EachCounted(reached, log)
    && (Misses(reached, log) ==> |reached| == maxEntries)
    && (!Misses(reached, log) ==> Totals(reached, log))
  }

  /** Each destination is counted as often as it was decided on, and flagged as it first was. */
  ghost predicate EachCounted(reached: seq<Entry>, log: seq<Recorded>) {
    forall i :: 0 <= i < |reached| ==>
      reached[i].count == Times(log, reached[i].key) && FirstFlag(log, reached[i].key) == Some(reached[i].declared)
  }

  /** The counts are all the decisions, and the declared ones all the dials. */
  ghost predicate Totals(reached: seq<Entry>, log: seq<Recorded>) {
    AllCounts(reached) == |log| && (FlagsAgree(log) ==> DeclaredCounts(reached) == DialsIn(log))
  }

  lemma {:induction false} TimesOneMore(log: seq<Recorded>, r: Recorded, key: Key)
    ensures Times(log + [r], key) == Times(log, key) + if r.key == key then 1 else 0
    ensures DialsIn(log + [r]) == DialsIn(log) + if r.declared then 1 else 0
    ensures FirstFlag(log + [r], key)
      == if FirstFlag(log, key).Some? then FirstFlag(log, key) else if r.key == key then Some(r.declared) else None
  {
    assert (log + [r])[..|log|] == log;
  }

  lemma {:induction false} NeverRecorded(log: seq<Recorded>, key: Key)
    requires forall k :: 0 <= k < |log| ==> log[k].key != key
    ensures Times(log, key) == 0 && FirstFlag(log, key).None?
  {
    if log != [] {
      NeverRecorded(log[..|log| - 1], key);
    }
  }

  lemma {:induction false} FirstFlagIsSome(log: seq<Recorded>, key: Key)
    ensures FirstFlag(log, key).Some? ==>
      exists k :: 0 <= k < |log| && log[k] == Recorded(key, FirstFlag(log, key).value)
  {
    if log != [] {
      var n := |log| - 1;
      FirstFlagIsSome(log[..n], key);
      if FirstFlag(log[..n], key).Some? {
        var k :| 0 <= k < n && log[..n][k] == Recorded(key, FirstFlag(log, key).value);
        assert log[k] == log[..n][k];
      }
    }
  }

  /** A key is placed where it stands, and nowhere else. */
  lemma {:induction false} PlaceIsWhere(reached: seq<Entry>, key: Key)
    ensures Place(reached, key) == |reached| <==> forall i :: 0 <= i < |reached| ==> reached[i].key != key
  {
  }

  lemma {:induction false} CountsUpdate(reached: seq<Entry>, i: nat, now: Entry)
    requires i < |reached| && now.declared == reached[i].declared
    ensures AllCounts(reached[i := now]) == AllCounts(reached) - reached[i].count + now.count
    ensures DeclaredCounts(reached[i := now]) == DeclaredCounts(reached) + if now.declared
      then now.count - reached[i].count else 0
  {
    var n := |reached| - 1;
    if i < n {
      assert reached[i := now][..n] == reached[..n][i := now];
      CountsUpdate(reached[..n], i, now);
    } else {
      assert reached[i := now][..n] == reached[..n];
    }
  }

  lemma {:induction false} CountsAppend(reached: seq<Entry>, now: Entry)
    ensures AllCounts(reached + [now]) == AllCounts(reached) + now.count
    ensures DeclaredCounts(reached + [now]) == DeclaredCounts(reached) + if now.declared then now.count else 0
  {
    assert (reached + [now])[..|reached|] == reached;
  }

  lemma {:induction false} EachStillCounted(reached: seq<Entry>, log: seq<Recorded>, r: Recorded)
    requires EachCounted(reached, log) && DistinctKeys(reached)
    ensures var i := Place(reached, r.key);
      EachCounted(if i < |reached| then reached[i := reached[i].(count := reached[i].count + 1)]
        else reached, log + [r])
  {
    var all := log + [r];
    forall k | 0 <= k < |reached|
      ensures Times(all, reached[k].key) == Times(log, reached[k].key) + if r.key == reached[k].key then 1 else 0
      ensures FirstFlag(all, reached[k].key) == FirstFlag(log, reached[k].key)
    {
      TimesOneMore(log, r, reached[k].key);
    }
    PlaceIsWhere(reached, r.key);
  }

  lemma {:induction false} TotalsCount(reached: seq<Entry>, log: seq<Recorded>, r: Recorded, i: nat)
    requires Totals(reached, log) && i < |reached| && reached[i].key == r.key
      && FirstFlag(log, r.key) == Some(reached[i].declared)
    ensures Totals(reached[i := reached[i].(count := reached[i].count + 1)], log + [r])
  {
    CountsUpdate(reached, i, reached[i].(count := reached[i].count + 1));
    TimesOneMore(log, r, r.key);
    if FlagsAgree(log + [r]) {
      FlagsAgreeBefore(log, r);
      FirstFlagIsSome(log, r.key);
    }
  }

  lemma {:induction false} TotalsNew(reached: seq<Entry>, log: seq<Recorded>, r: Recorded)
    requires Totals(reached, log)
    ensures Totals(reached + [Entry(r.key, r.declared, 1)], log + [r])
  {
    CountsAppend(reached, Entry(r.key, r.declared, 1));
    TimesOneMore(log, r, r.key);
    if FlagsAgree(log + [r]) {
      FlagsAgreeBefore(log, r);
    }
  }

  /** A destination there is already is counted once more. */
  lemma {:induction false} CountKeeps(reached: seq<Entry>, log: seq<Recorded>, r: Recorded, maxEntries: nat)
    requires True(reached, log, maxEntries) && Place(reached, r.key) < |reached|
    ensures var i := Place(reached, r.key); var now := reached[i := reached[i].(count := reached[i].count + 1)];
      True(now, log + [r], maxEntries) && (Misses(now, log + [r]) <==> Misses(reached, log))
  {
    hide Totals, Times, FirstFlag, Misses;
    var i := Place(reached, r.key);
    var now := reached[i := reached[i].(count := reached[i].count + 1)];
    EachStillCounted(reached, log, r);
    SameMisses(reached, now, log, r);
    if !Misses(reached, log) {
      TotalsCount(reached, log, r, i);
    }
  }

  lemma {:induction false} FlagsAgreeBefore(log: seq<Recorded>, r: Recorded)
    requires FlagsAgree(log + [r])
    ensures FlagsAgree(log) && forall k :: 0 <= k < |log| && log[k].key == r.key ==> log[k].declared == r.declared
  {
    var all := log + [r];
    assert forall k :: 0 <= k < |log| ==> all[k] == log[k];
    assert all[|log|] == r;
  }

  lemma {:induction false} SameMisses(reached: seq<Entry>, now: seq<Entry>, log: seq<Recorded>, r: Recorded)
    requires |now| == |reached| && forall i :: 0 <= i < |reached| ==> now[i].key == reached[i].key
    requires Place(reached, r.key) < |reached|
    ensures Misses(now, log + [r]) <==> Misses(reached, log)
  {
    var all := log + [r];
    forall key ensures Place(now, key) == |now| <==> Place(reached, key) == |reached| {
      PlaceIsWhere(now, key);
      PlaceIsWhere(reached, key);
    }
    if Misses(reached, log) {
      var k :| 0 <= k < |log| && Place(reached, log[k].key) == |reached|;
      assert all[k] == log[k];
    }
    if Misses(now, all) {
      var k :| 0 <= k < |all| && Place(now, all[k].key) == |now|;
      assert k < |log| && all[k] == log[k];
    }
  }

  /** A destination the full record has no place for is dropped. */
  lemma {:induction false} DropKeeps(reached: seq<Entry>, log: seq<Recorded>, r: Recorded, maxEntries: nat)
    requires True(reached, log, maxEntries) && Place(reached, r.key) == |reached| == maxEntries
    ensures True(reached, log + [r], maxEntries) && Misses(reached, log + [r])
  {
    hide Totals, EachCounted;
    assert (log + [r])[|log|] == r;
    EachStillCounted(reached, log, r);
  }

  lemma {:induction false} NewIsCounted(reached: seq<Entry>, log: seq<Recorded>, r: Recorded)
    requires EachCounted(reached, log) && DistinctKeys(reached) && Place(reached, r.key) == |reached|
      && !Misses(reached, log)
    ensures EachCounted(reached + [Entry(r.key, r.declared, 1)], log + [r])
  {
    EachStillCounted(reached, log, r);
    TimesOneMore(log, r, r.key);
    forall k | 0 <= k < |log| ensures log[k].key != r.key {
      assert Place(reached, log[k].key) < |reached|;
    }
    NeverRecorded(log, r.key);
  }

  lemma {:induction false} NewMissesNothing(reached: seq<Entry>, log: seq<Recorded>, r: Recorded)
    requires !Misses(reached, log)
    ensures !Misses(reached + [Entry(r.key, r.declared, 1)], log + [r])
  {
    var now, all := reached + [Entry(r.key, r.declared, 1)], log + [r];
    forall k | 0 <= k < |all| ensures Place(now, all[k].key) < |now| {
      PlaceIsWhere(now, all[k].key);
      if k < |log| {
        var i := Place(reached, log[k].key);
        assert now[i].key == all[k].key;
      } else {
        assert now[|reached|].key == all[k].key;
      }
    }
  }

  /** A destination that is new while there is place for it has never been decided on. */
  lemma {:induction false} NewKeeps(reached: seq<Entry>, log: seq<Recorded>, r: Recorded, maxEntries: nat)
    requires True(reached, log, maxEntries) && Place(reached, r.key) == |reached| < maxEntries
    ensures True(reached + [Entry(r.key, r.declared, 1)], log + [r], maxEntries)
    ensures !Misses(reached, log) && !Misses(reached + [Entry(r.key, r.declared, 1)], log + [r])
  {
    hide Totals, EachCounted, Misses;
    PlaceIsWhere(reached, r.key);
    NewIsCounted(reached, log, r);
    NewMissesNothing(reached, log, r);
    TotalsNew(reached, log, r);
  }

  lemma {:induction false} WithinBound(reached: seq<Entry>, log: seq<Recorded>, maxEntries: nat)
    requires True(reached, log, maxEntries)
    ensures |reached| <= maxEntries
  {
  }

  /** Noting a decision keeps the record true, and it misses a destination from the first it drops. */
  lemma {:induction false} NotedKeeps(reached: seq<Entry>, log: seq<Recorded>, r: Recorded, maxEntries: nat)
    requires True(reached, log, maxEntries)
    ensures True(Noted(reached, r, maxEntries), log + [r], maxEntries)
    ensures Misses(Noted(reached, r, maxEntries), log + [r]) <==> Misses(reached, log) || Drops(reached, r, maxEntries)
    ensures DialsIn(log + [r]) == DialsIn(log) + if r.declared then 1 else 0
  {
    hide True, Misses, Place;
    TimesOneMore(log, r, r.key);
    assert |reached| <= maxEntries by { WithinBound(reached, log, maxEntries); }
    if Place(reached, r.key) < |reached| {
      CountKeeps(reached, log, r, maxEntries);
    } else if |reached| == maxEntries {
      DropKeeps(reached, log, r, maxEntries);
    } else {
      NewKeeps(reached, log, r, maxEntries);
    }
  }

  // ----------------------------------------------------------------- whole runs

  /**
   A dial of a host that is called what a nameless request is recorded as, under the very
   key of a nameless request at its port: it is the app, is dialled by its own name or at
   a web port, or its port is carried as nothing in particular.
   */
  ghost predicate DialsAsNameless(c: Config, port: nat) {
    && port < 65_536 && MayDial(c, UNKNOWN, port)
    && (IsApp(c, UNKNOWN) || DialAs(c, UNKNOWN) == UNKNOWN || port == 80 || port == 443
      || Or(ProtocolOf(c, port), TCP) == TCP)
  }

  ghost predicate NeverDialsAsNameless(c: Config) {
    forall port: nat :: !DialsAsNameless(c, port)
  }

  /** What a dial of "unknown" is recorded under is a nameless request's key exactly where it dials as one. */
  lemma {:induction false} SharedKey(c: Config, port: nat)
    requires port < 65_536
    ensures var named, nameless := Decide(c, Connect(Some(UNKNOWN), port)), Decide(c, Connect(None, port));
      nameless.Refuse? && (DialsAsNameless(c, port) <==> named.Dial? && named.key == nameless.key)
  {
    DialsExactlyWhereItMay(c, Connect(Some(UNKNOWN), port));
    hide Declared, DialAs, StubDeclares, MayDial;
  }

  /** A recorded dial and a recorded refusal of one destination: "unknown", and a nameless request at its port. */
  lemma {:induction false} DialAndRefusal(c: Config, q: Request, r: Request)
    requires Decide(c, q).Dial? && Decide(c, r).Refuse? && Decide(c, q).key == Decide(c, r).key
    ensures DialsAsNameless(c, Decide(c, q).key.port)
  {
    hide DialAs, StubDeclares, Declared;
    var port := Decide(c, q).key.port;
    assert DNS != TCP;
    SameRequest(c, q, r);
    SharedKey(c, port);
  }

  lemma {:induction false} SameRequest(c: Config, q: Request, r: Request)
    requires Decide(c, q).Dial? && Decide(c, r).Refuse? && Decide(c, q).key == Decide(c, r).key
    ensures q == Connect(Some(UNKNOWN), q.port) && r.host.None?
  {
    hide DialAs, StubDeclares, Declared;
  }

  /**
   Two decisions recorded of one destination go the same way, so long as "unknown" is
   never dialled as a nameless request.
   */
  lemma {:induction false} SameKeySameFlag(c: Config, q: Request, r: Request)
    requires NeverDialsAsNameless(c)
    requires RecordOf(Decide(c, q)) != [] && RecordOf(Decide(c, r)) != []
    requires RecordOf(Decide(c, q))[0].key == RecordOf(Decide(c, r))[0].key
    ensures RecordOf(Decide(c, q))[0].declared == RecordOf(Decide(c, r))[0].declared
  {
    hide Decide, DialsAsNameless;
    if Decide(c, q).Dial? && Decide(c, r).Refuse? {
      DialAndRefusal(c, q, r);
    }
    if Decide(c, r).Dial? && Decide(c, q).Refuse? {
      DialAndRefusal(c, r, q);
    }
  }

  lemma {:induction false} RecordedByRequest(c: Config, requests: seq<Request>, k: nat) returns (r: Request)
    requires k < |RecordedOf(c, requests)|
    ensures RecordOf(Decide(c, r)) == [RecordedOf(c, requests)[k]]
  {
    var n := |requests| - 1;
    if k < |RecordedOf(c, requests[..n])| {
      r := RecordedByRequest(c, requests[..n], k);
    } else {
      r := requests[n];
    }
  }

  lemma {:induction false} FlagsAgreeAlways(c: Config, requests: seq<Request>)
    requires NeverDialsAsNameless(c)
    ensures FlagsAgree(RecordedOf(c, requests))
  {
    var log := RecordedOf(c, requests);
    forall i, j | 0 <= i < |log| && 0 <= j < |log| && log[i].key == log[j].key
      ensures log[i].declared == log[j].declared
    {
      var q := RecordedByRequest(c, requests, i);
      var r := RecordedByRequest(c, requests, j);
      SameKeySameFlag(c, q, r);
    }
  }

  /** Every entry is flagged as each decision it counts went. */
  ghost predicate FlagsRight(reached: seq<Entry>, log: seq<Recorded>) {
    forall i, k :: 0 <= i < |reached| && 0 <= k < |log| && log[k].key == reached[i].key ==>
      log[k].declared == reached[i].declared
  }

  lemma {:induction false} NotesAreTrue(log: seq<Recorded>, maxEntries: nat)
    ensures True(Notes(log, maxEntries), log, maxEntries)
  {
    hide True, Noted, Drops;
    if log == [] {
      NothingIsTrue(maxEntries);
    } else {
      NotesAreTrue(log[..|log| - 1], maxEntries);
      NotedKeeps(Notes(log[..|log| - 1], maxEntries), log[..|log| - 1], log[|log| - 1], maxEntries);
      assert log[..|log| - 1] + [log[|log| - 1]] == log;
    }
  }

  lemma {:induction false} NothingIsTrue(maxEntries: nat)
    ensures True([], [], maxEntries)
  {
  }

  lemma {:induction false} AgreedIsRight(reached: seq<Entry>, log: seq<Recorded>)
    requires FlagsAgree(log) && EachCounted(reached, log)
    ensures FlagsRight(reached, log)
  {
    forall i, k | 0 <= i < |reached| && 0 <= k < |log| && log[k].key == reached[i].key
      ensures log[k].declared == reached[i].declared
    {
      FirstFlagIsSome(log, reached[i].key);
    }
  }

  /** A dial of "unknown" as a nameless request is counted with the refusal of one that is nameless indeed. */
  lemma {:induction false} UnknownIsAmbiguous(c: Config, port: nat)
    requires DialsAsNameless(c, port) && c.maxEntries > 0
    ensures var log := RecordedOf(c, [Connect(Some(UNKNOWN), port), Connect(None, port)]);
      !FlagsRight(Notes(log, c.maxEntries), log)
  {
    hide Decide, DialsAsNameless, FlagsRight, Notes;
    var named, nameless := Connect(Some(UNKNOWN), port), Connect(None, port);
    DialsOnPort(c, port);
    SharedKey(c, port);
    var key := Decide(c, nameless).key;
    assert [named, nameless][..1] == [named] && [named][..0] == [];
    assert RecordedOf(c, [named]) == [Recorded(key, true)];
    TwoAreCountedAsOne(key, c.maxEntries);
  }

  lemma {:induction false} DialsOnPort(c: Config, port: nat)
    ensures DialsAsNameless(c, port) ==> port < 65_536
  {
  }

  lemma {:induction false} TwoAreCountedAsOne(key: Key, maxEntries: nat)
    requires maxEntries > 0
    ensures var log := [Recorded(key, true)] + [Recorded(key, false)]; !FlagsRight(Notes(log, maxEntries), log)
  {
    var first := [Recorded(key, true)];
    NotesOneMore([], Recorded(key, true), maxEntries);
    NotesOneMore(first, Recorded(key, false), maxEntries);
    assert [] + first == first;
    assert Notes(first, maxEntries) == [Entry(key, true, 1)];
    assert Notes(first + [Recorded(key, false)], maxEntries)[0] == Entry(key, true, 2);
    assert (first + [Recorded(key, false)])[1] == Recorded(key, false);
  }

  /** The record left by any run of requests flags each of its entries right. */
  ghost predicate FlagsAlwaysRight(c: Config) {
    forall requests: seq<Request> ::
      FlagsRight(Notes(RecordedOf(c, requests), c.maxEntries), RecordedOf(c, requests))
  }

  /**
   The record's flags can be trusted exactly when "unknown" is never dialled as a
   nameless request, or nothing is recorded.
   */
  lemma {:induction false} FlagsAreRightExactlyWhen(c: Config)
    ensures FlagsAlwaysRight(c) <==> NeverDialsAsNameless(c) || c.maxEntries == 0
  {
    if !NeverDialsAsNameless(c) && c.maxEntries > 0 {
      var port: nat :| DialsAsNameless(c, port);
      UnknownIsAmbiguous(c, port);
    } else {
      forall requests: seq<Request>
        ensures FlagsRight(Notes(RecordedOf(c, requests), c.maxEntries), RecordedOf(c, requests))
      {
        NotesAreTrue(RecordedOf(c, requests), c.maxEntries);
        if NeverDialsAsNameless(c) {
          FlagsAgreeAlways(c, requests);
          AgreedIsRight(Notes(RecordedOf(c, requests), c.maxEntries), RecordedOf(c, requests));
        } else {
          assert Notes(RecordedOf(c, requests), c.maxEntries) == [];
        }
      }
    }
  }

  /**
   A gate that carries its own two ports, and its app's when the app is "unknown", dials
   so exactly when it declares that name.
   */
  lemma {:induction false} DeclaredIsDialled(c: Config)
    requires 80 in c.carried
    requires IsApp(c, UNKNOWN) ==> 0 < c.app.value.port < 65_536 && c.app.value.port in c.carried
    ensures NeverDialsAsNameless(c) <==> !Named(UNKNOWN, c.hosts)
  {
    hide Named;
    assert Named(UNKNOWN, c.hosts) ==> DialsAsNameless(c, if IsApp(c, UNKNOWN) then c.app.value.port else 80);
  }

  /** A run of requests. */
  method Serve(c: Config, requests: seq<Request>) returns (gate: Gate)
    ensures fresh(gate) && gate.Valid() && gate.config == c && gate.log == RecordedOf(c, requests)
  {
    gate := new Gate(c);
    for i := 0 to |requests|
      invariant fresh(gate) && gate.Valid() && gate.config == c && gate.log == RecordedOf(c, requests[..i])
    {
      assert requests[..i + 1][..i] == requests[..i];
      var _ := gate.Handle(requests[i]);
    }
    assert requests[..|requests|] == requests;
  }

  /**
   What the record says of a run of requests. It never holds more than its bound,
   and what it holds it counts exactly and flags as each request it counts was
   answered; and until it is cut, its counts are all the decisions there were, and
   its declared counts all the dials.
   */
  lemma {:induction false} RecordIsTrue(c: Config, requests: seq<Request>, reached: seq<Entry>)
    requires NeverDialsAsNameless(c) && True(reached, RecordedOf(c, requests), c.maxEntries)
    ensures var log := RecordedOf(c, requests);
      && |reached| <= c.maxEntries
      && FlagsRight(reached, log)
      && (!Misses(reached, log) ==> AllCounts(reached) == |log| && DeclaredCounts(reached) == DialsIn(log))
  {
    var log := RecordedOf(c, requests);
    FlagsAgreeAlways(c, requests);
    AgreedIsRight(reached, log);
  }

  // ----------------------------------------------------------------- a dial's reply

  /** What may become of a dial, in any order and any number of times. */
  datatype DialEvent = Connected | Failed(why: string) | TimedOut

  datatype Reply = Joined | Unreachable(why: string)

  /** One dial and the reply its request is sent. */
  class DialReply {
    var settled: bool
    var replies: seq<Reply>
    ghost var events: seq<DialEvent>

    ghost predicate Valid()
      reads this
    {
      settled == (events != []) && replies == if events == [] then [] else [ReplyTo(events[0])]
    }

    constructor ()
      ensures Valid() && events == []
    {
      settled, replies, events := false, [], [];
    }

    /** The first event is answered and no other, so a request gets one reply whatever its dial does. */
    method On(event: DialEvent)
      requires Valid()
      modifies this
      ensures Valid() && events == old(events) + [event]
    {
      events := events + [event];
      if settled {
        return;
      }
      settled := true;
      match event
      case Connected => replies := replies + [Joined];
      case Failed(why) => replies := replies + [Unreachable(why)];
      case TimedOut => replies := replies + [Unreachable("timed out")];
    }
  }

  function ReplyTo(event: DialEvent): Reply {
    match event
    case Connected => Joined
    case Failed(why) => Unreachable(why)
    case TimedOut => Unreachable("timed out")
  }
}
