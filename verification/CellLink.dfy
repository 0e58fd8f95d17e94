/**
 The shim's end and the gate's end of one carried connection, with the bytes in flight
 between them. What arrives, and when, and in what pieces is any schedule of events.
 */
module CellLink {
  import opened Prelude
  import opened CellWire
  import opened CellPeek
  import opened CellStreams
  import opened CellRelay

  /** No line of the two's holds a line's end, the answers read as what they are, and asking to connect is no lookup. */
  ghost predicate Agreed(w: Wire) {
    && LF !in w.yes && LF !in w.no && w.says(w.yes) && !w.says(w.no)
    && forall host :: LF !in w.line(host) && !w.handles(w.line(host)).Allowed?
  }

  /** Everything the shim has written to the gate: the line it asks with, and after the yes what it carries. */
  function Written(w: Wire, asked: Option<Option<Bytes>>, up: Bytes): Bytes {
    (if asked.Some? then w.line(asked.value) + [LF] else []) + up
  }

  /** What the shim's end shows of itself to a link. */
  datatype End = End(asked: Option<Option<Bytes>>, up: Bytes, heard: Bytes, closed: bool)

  /**
   What is in flight is what one end wrote and the other has not seen, so long as the
   other is there; nothing was written after the line before a yes was heard; and the
   gate missed nothing.
   */
  ghost predicate InStep(w: Wire, e: End, seen: seq<GateHappening>, toGate: Bytes, toShim: Bytes) {
    var s := GateRun(w, seen);
    && (if s.gone then Arrived(w, seen) <= Written(w, e.asked, e.up)
      else Arrived(w, seen) + toGate == Written(w, e.asked, e.up))
    && (if e.closed then e.heard <= s.back else e.heard + toShim == s.back)
    && (e.up != [] ==> e.asked.Some? && SplitLine(e.heard).Some?)
    && Missed(w, seen) == []
  }

  /** Where a line ends in what was written, all of the line and its end have arrived. */
  lemma {:induction false} LineHasArrived(line: Bytes, arrived: Bytes, inFlight: Bytes)
    requires LF !in line && arrived + inFlight == line + [LF] && LineOf(arrived).Complete?
    ensures inFlight == []
  {
    var end, all := FindByte(arrived, LF, 0), line + [LF];
    assert arrived[end] == all[end] && forall k :: 0 <= k < |line| ==> all[k] == line[k];
  }

  /** While the gate dials, nothing is on its way to it. */
  lemma {:induction false} NothingWhileDialling(w: Wire, e: End, seen: seq<GateHappening>, toGate: Bytes, toShim: Bytes)
    requires Agreed(w) && InStep(w, e, seen, toGate, toShim) && Unheard(GateRun(w, seen))
    ensures toGate == []
  {
    hide GateRun, Arrived, Missed, LineOf;
    CourseHolds(w, seen);
    assert e.heard == [] && e.up == [];
    if e.asked.Some? {
      assert Written(w, e.asked, []) == w.line(e.asked.value) + [LF];
      LineHasArrived(w.line(e.asked.value), Arrived(w, seen), toGate);
    } else {
      NothingIsNoLine();
    }
  }

  lemma {:induction false} NothingIsNoLine()
    ensures !LineOf([]).Complete? && SplitLine([]).None?
  {
  }

  // ------------------------------------------------------------- one end at a time

  lemma {:induction false} BackOnlyGrows(w: Wire, seen: seq<GateHappening>, h: GateHappening)
    ensures GateRun(w, seen).back <= GateRun(w, seen + [h]).back
  {
    hide LineOf;
    CourseHolds(w, seen);
    OneMoreHappening(w, seen, h);
  }

  /** Something happens at the gate's end: what it takes was in flight, and what it writes is. */
  lemma {:induction false} GateGoesOn(w: Wire, e: End, seen: seq<GateHappening>, toGate: Bytes, toShim: Bytes,
      h: GateHappening, after: Bytes)
    requires Agreed(w) && InStep(w, e, seen, toGate, toShim)
    requires toGate == if h.FromShim? then h.chunk + after else after
    ensures GateRun(w, seen).back <= GateRun(w, seen + [h]).back
    ensures InStep(w, e, seen + [h], after, toShim + GateRun(w, seen + [h]).back[|GateRun(w, seen).back|..])
  {
    hide GateRun, Arrived, Missed, StepRead, Agreed, Written;
    var s, next := GateRun(w, seen), GateRun(w, seen + [h]);
    BackOnlyGrows(w, seen, h);
    OneMoreHappening(w, seen, h);
    var more := next.back[|s.back|..];
    assert next.back == s.back + more;
    Associates(e.heard, toShim, more);
    if h.FromShim? {
      Associates(Arrived(w, seen), h.chunk, after);
      if Unheard(s) {
        NothingWhileDialling(w, e, seen, toGate, toShim);
      }
    }
    NothingMore(Arrived(w, seen), Missed(w, seen), []);
    GoneStays(w, s, h);
  }

  lemma {:induction false} GoneStays(w: Wire, s: Conn, h: GateHappening)
    ensures GateStep(w, s, h).gone <==> s.gone || h.ShimGone?
  {
    hide LineOf;
  }

  /** Something happens at the shim's end: what it hears was in flight, and what it writes is. */
  lemma {:induction false} ShimGoesOn(w: Wire, e: End, now: End, seen: seq<GateHappening>, toGate: Bytes,
      toShim: Bytes, chunk: Bytes, after: Bytes, more: Bytes)
    requires InStep(w, e, seen, toGate, toShim)
    requires Written(w, now.asked, now.up) == Written(w, e.asked, e.up) + more
    requires now.up != [] ==> now.asked.Some? && SplitLine(now.heard).Some?
    requires if e.closed then now.closed && now.heard == e.heard
      else now.heard == e.heard + chunk || (now.closed && now.heard == e.heard)
    requires toShim == chunk + after
    ensures InStep(w, now, seen, toGate + more, after)
  {
    hide GateRun, Arrived, Missed, SplitLine, Written;
    Associates(Arrived(w, seen), toGate, more);
    Associates(e.heard, chunk, after);
  }

  /** Before the gate is asked, it has nothing to say. */
  lemma {:induction false} SilentBeforeAsked(w: Wire, e: End, seen: seq<GateHappening>, toGate: Bytes, toShim: Bytes)
    requires InStep(w, e, seen, toGate, toShim) && e.asked.None? && e.up == [] && !e.closed
    ensures toShim == []
  {
    hide GateRun, Arrived, Missed, LineOf, SplitLine;
    CourseHolds(w, seen);
    NothingIsNoLine();
    assert Arrived(w, seen) == [];
  }

  // ------------------------------------------------------------- nothing is lost

  /** An end that is over without having lost the side it dialled never said yes but to a lookup. */
  ghost predicate NoYes(w: Wire, s: Conn) {
    s.phase.Over? && !s.gone ==>
      s.back == [] || s.back == w.no + [LF] || (s.request.Some? && w.handles(s.request.value).Allowed?)
  }

  lemma {:induction false} StepIsNoYes(w: Wire, s: Conn, h: GateHappening)
    requires NoYes(w, s) && (s.phase.Reading? || s.phase.Dialling? ==> s.back == []) && !h.DialledGone?
    ensures NoYes(w, GateStep(w, s, h))
  {
    hide LineOf;
  }

  lemma {:induction false} OverIsNoYes(w: Wire, seen: seq<GateHappening>)
    requires DialledGone !in seen
    ensures NoYes(w, GateRun(w, seen))
  {
    if seen != [] {
      hide LineOf, GateStep, NoYes;
      var n := |seen| - 1;
      assert forall k :: 0 <= k < n ==> seen[..n][k] == seen[k];
      OverIsNoYes(w, seen[..n]);
      CourseHolds(w, seen[..n]);
      assert seen[n] in seen;
      StepIsNoYes(w, GateRun(w, seen[..n]), seen[n]);
    }
  }

  /**
   What the gate has passed on to the dialled side, and what is still on its way there,
   is what the shim has carried.
   */
  lemma {:induction false} UpIsKept(w: Wire, e: End, seen: seq<GateHappening>, toGate: Bytes, toShim: Bytes)
    requires Agreed(w) && InStep(w, e, seen, toGate, toShim)
    ensures Unhurried(w, seen)
    ensures GateRun(w, seen).forwarded <= e.up
    ensures GateRun(w, seen).phase.Joined? && !GateRun(w, seen).gone ==> GateRun(w, seen).forwarded + toGate == e.up
  {
    hide GateRun, Arrived, Missed, LineOf, SplitLine, Unhurried;
    CourseHolds(w, seen);
    NothingMissedIff(w, seen);
    var s, arrived := GateRun(w, seen), Arrived(w, seen);
    if LineOf(arrived).Complete? {
      NothingIsNoLine();
      var inFlight := Written(w, e.asked, e.up)[|arrived|..];
      assert arrived + inFlight == Written(w, e.asked, e.up);
      LineIsFinal(arrived, inFlight);
      LineIsRead(w.line(e.asked.value), e.up);
      assert LineOf(arrived).rest + inFlight == e.up;
      assert s.rest + [] == s.rest && (s.rest <= s.forwarded ==> s.rest + s.forwarded[|s.rest|..] == s.forwarded);
    }
  }

  /**
   What the shim has passed on to its client, and what is still on its way there, is what
   the dialled side has sent.
   */
  lemma {:induction false} DownIsKept(w: Wire, e: End, seen: seq<GateHappening>, toGate: Bytes, toShim: Bytes)
    requires Agreed(w) && InStep(w, e, seen, toGate, toShim)
    requires !e.closed && SplitLine(e.heard).Some? && w.says(SplitLine(e.heard).value.0)
    ensures SplitLine(e.heard).value.1 + toShim == Returned(w, seen)
    ensures DialledGone !in seen && !GateRun(w, seen).gone ==> GateRun(w, seen).phase.Joined?
  {
    hide GateRun, Arrived, Missed, LineOf, SplitLine, Returned;
    CourseHolds(w, seen);
    NothingIsNoLine();
    SplitLineIsFinal(e.heard, toShim);
    LineIsRead(w.yes, Returned(w, seen));
    LineIsRead(w.no, []);
    NothingMore(w.no + [LF], [], []);
    if DialledGone !in seen {
      OverIsNoYes(w, seen);
      AskedIsTheLine(w, e, seen, toGate, toShim);
    }
  }

  lemma {:induction false} AskedIsTheLine(w: Wire, e: End, seen: seq<GateHappening>, toGate: Bytes, toShim: Bytes)
    requires Agreed(w) && InStep(w, e, seen, toGate, toShim)
    ensures GateRun(w, seen).request.Some? ==> !w.handles(GateRun(w, seen).request.value).Allowed?
  {
    hide GateRun, Arrived, Missed, LineOf, SplitLine;
    CourseHolds(w, seen);
    var arrived := Arrived(w, seen);
    if LineOf(arrived).Complete? {
      NothingIsNoLine();
      var inFlight := Written(w, e.asked, e.up)[|arrived|..];
      assert arrived + inFlight == Written(w, e.asked, e.up);
      LineIsFinal(arrived, inFlight);
      LineIsRead(w.line(e.asked.value), e.up);
    }
  }

  // ------------------------------------------------------------ both ends together

  /**
   What may happen to a carried connection: the client or the dialled side sends, bytes
   in flight arrive, `n` at a time, the dial comes to something, or an end goes.
   */
  datatype Event =
    | ClientSends(chunk: Bytes)
    | ReachesGate(n: nat)
    | ReachesShim(n: nat)
    | DialConnects
    | DialIsRefused
    | DialledSends(chunk: Bytes)
    | ShimEnds
    | GateLosesShim
    | DialledEnds

  /** A shim's carrier and a gate's connection with what is on its way between them. */
  class Link {
    const w: Wire
    const shim: Carrier
    const gate: GateConnection
    var toGate: Bytes
    var toShim: Bytes

    ghost function ShimEnd(): End
      reads shim
    {
      End(shim.asked, shim.up, shim.fromGate, shim.phase.Closed?)
    }

    ghost predicate Valid()
      reads this, shim, gate
    {
      && Agreed(w) && gate.w == w && shim.says == w.says
      && shim.Valid() && gate.Valid()
      && InStep(w, ShimEnd(), gate.seen, toGate, toShim)
    }

    constructor (w: Wire, peek: Bytes -> Peeked)
      requires Agreed(w) && Stable(peek) && peek([]) == More
      ensures Valid() && fresh(shim) && fresh(gate) && this.w == w && shim.peek == peek
      ensures shim.fromClient == [] && !shim.phase.Closed?
    {
      this.w := w;
      shim := new Carrier(peek, w.says);
      gate := new GateConnection(w);
      toGate, toShim := [], [];
    }

    /** Both ends are there, and the shim has heard its yes. */
    ghost predicate Stands()
      reads this, shim, gate
    {
      shim.phase.Piping? && !gate.gone && DialledGone !in gate.seen
    }

    /** What a link comes to, wherever it has come. */
    lemma {:induction false} NothingIsLost()
      requires Valid()
      ensures Unhurried(w, gate.seen) && gate.forwarded <= shim.fromClient
      ensures Stands() ==> gate.phase.Joined? && gate.forwarded + toGate == shim.fromClient
      ensures Stands() ==> shim.down + toShim == Returned(w, gate.seen)
    {
      hide Agreed, InStep, SplitLine, Unhurried, Returned;
      UpIsKept(w, ShimEnd(), gate.seen, toGate, toShim);
      if shim.phase.Piping? {
        DownIsKept(w, ShimEnd(), gate.seen, toGate, toShim);
      }
    }

    method OnClientSends(chunk: Bytes)
      requires Valid()
      modifies this, shim
      ensures Valid()
      ensures shim.phase.Closed? == old(shim.phase.Closed?)
      ensures shim.fromClient == if shim.phase.Closed? then old(shim.fromClient) else old(shim.fromClient) + chunk
    {
      hide InStep, Agreed;
      ghost var before := ShimEnd();
      var phase := shim.phase;
      shim.OnClientData(chunk);
      var more: Bytes := [];
      if phase.Peeking? && shim.phase.Asking? {
        more := w.line(shim.asked.value) + [LF];
      } else if phase.Piping? {
        more := chunk;
      }
      ShimGoesOn(w, before, ShimEnd(), gate.seen, toGate, toShim, [], toShim, more);
      toGate := toGate + more;
    }

    method OnReachesGate(n: nat)
      requires Valid()
      modifies this, gate
      ensures Valid()
    {
      hide InStep, Agreed, GateRun;
      var k := Min(n, |toGate|);
      var chunk, said := toGate[..k], |gate.back|;
      assert toGate == chunk + toGate[k..];
      GateGoesOn(w, ShimEnd(), gate.seen, toGate, toShim, FromShim(chunk), toGate[k..]);
      gate.OnData(chunk);
      toGate, toShim := toGate[k..], toShim + gate.back[said..];
    }

    method OnReachesShim(n: nat)
      requires Valid()
      modifies this, shim
      ensures Valid() && shim.fromClient == old(shim.fromClient)
      ensures old(shim.phase.Closed?) ==> shim.phase.Closed?
    {
      hide InStep, Agreed, SplitLine, FindByte;
      var k := Min(n, |toShim|);
      var chunk, asking := toShim[..k], shim.phase.Asking?;
      ghost var before := ShimEnd();
      assert toShim == chunk + toShim[k..];
      if shim.phase.Peeking? {
        SilentBeforeAsked(w, before, gate.seen, toGate, toShim);
      }
      shim.OnGateData(chunk);
      var more := if asking && shim.phase.Piping? then shim.up else [];
      ShimGoesOn(w, before, ShimEnd(), gate.seen, toGate, toShim, chunk, toShim[k..], more);
      toGate, toShim := toGate + more, toShim[k..];
    }

    method OnShimEnds()
      requires Valid()
      modifies this, shim
      ensures Valid() && shim.phase.Closed? && shim.fromClient == old(shim.fromClient)
    {
      hide InStep, Agreed;
      ghost var before := ShimEnd();
      shim.OnFailure();
      ShimGoesOn(w, before, ShimEnd(), gate.seen, toGate, toShim, [], toShim, []);
      assert toGate + [] == toGate;
    }

    /** What happens at the gate's end but for bytes reaching it. */
    method AtGate(event: Event)
      requires Valid() && HappensAtGate(event).Some?
      modifies this, gate
      ensures Valid() && gate.seen == old(gate.seen) + [HappensAtGate(event).value]
    {
      hide InStep, Agreed, GateRun;
      var said := |gate.back|;
      GateGoesOn(w, ShimEnd(), gate.seen, toGate, toShim, HappensAtGate(event).value, toGate);
      match event {
        case DialConnects => gate.OnConnect();
        case DialIsRefused => gate.OnDialFailed();
        case DialledSends(chunk) => gate.OnDialledData(chunk);
        case GateLosesShim => gate.OnShimGone();
        case DialledEnds => gate.OnDialledGone();
      }
      toShim := toShim + gate.back[said..];
    }
  }

  function HappensAtGate(event: Event): Option<GateHappening> {
    match event
    case DialConnects => Some(Connects)
    case DialIsRefused => Some(DialFails)
    case DialledSends(chunk) => Some(FromDialled(chunk))
    case GateLosesShim => Some(ShimGone)
    case DialledEnds => Some(DialledGone)
    case _ => None
  }

  function Sent(events: seq<Event>): Bytes {
    if events == [] then []
    else
      var before, last := Sent(events[..|events| - 1]), events[|events| - 1];
      if last.ClientSends? then before + last.chunk else before
  }

  /**
   A shim writes nothing but its line before it has heard a yes, so the gate never misses
   a byte of its. Whatever happens in whatever order, the dialled side gets a beginning of
   what the client sent; and while both ends stand after the yes, all either side has sent
   was passed on to the other or is on its way there.
   */
  method CarryThrough(w: Wire, peek: Bytes -> Peeked, events: seq<Event>) returns (link: Link)
    requires Agreed(w) && Stable(peek) && peek([]) == More
    ensures fresh(link) && link.Valid() && Unhurried(w, link.gate.seen)
    ensures link.gate.forwarded <= Sent(events)
    ensures link.Stands() ==> link.gate.phase.Joined? && link.gate.forwarded + link.toGate == Sent(events)
    ensures link.Stands() ==> link.shim.down + link.toShim == Returned(w, link.gate.seen)
  {
    hide Link.Valid, Carrier.Valid, GateConnection.Valid;
    link := new Link(w, peek);
    for i := 0 to |events|
      invariant fresh(link) && fresh(link.shim) && fresh(link.gate) && link.Valid() && link.w == w
      invariant link.shim.fromClient <= Sent(events[..i])
      invariant !link.shim.phase.Closed? ==> link.shim.fromClient == Sent(events[..i])
    {
      assert events[..i + 1][..i] == events[..i];
      match events[i]
      case ClientSends(chunk) => link.OnClientSends(chunk);
      case ReachesGate(n) => link.OnReachesGate(n);
      case ReachesShim(n) => link.OnReachesShim(n);
      case ShimEnds => link.OnShimEnds();
      case _ => link.AtGate(events[i]);
    }
    assert events[..|events|] == events;
    link.NothingIsLost();
  }
}
