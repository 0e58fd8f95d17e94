/**
 The gate's side of a connection, and both sides of a carried one together. The gate
 reads one request line, may dial somewhere else for it, and joins the two once the dial
 has connected. While it dials nothing listens to the side that asked.
 */
module CellRelay {
  import opened Prelude
  import opened CellWire
  import opened CellPeek
  import opened CellStreams

  // ------------------------------------------------------------- the request line

  const MAX_REQUEST_BYTES := 1024

  /** A request line still coming in, given up on, or read, with what followed it. */
  datatype Line = Partial | TooLong | Complete(request: Bytes, rest: Bytes)

  /** What becomes of a stream: the line is read when it ends within the bound, and given up on when it does not. */
  function LineOf(stream: Bytes): Line {
    var end := FindByte(stream, LF, 0);
    if end > MAX_REQUEST_BYTES then TooLong
    else if end == |stream| then Partial
    else Complete(stream[..end], stream[end + 1..])
  }

  /** More bytes change nothing that was decided but what follows the line. */
  lemma {:induction false} LineIsFinal(stream: Bytes, more: Bytes)
    ensures LineOf(stream).TooLong? ==> LineOf(stream + more).TooLong?
    ensures LineOf(stream).Complete? ==>
      LineOf(stream + more) == Complete(LineOf(stream).request, LineOf(stream).rest + more)
  {
    var end, all := FindByte(stream, LF, 0), stream + more;
    assert forall k :: 0 <= k < |stream| ==> all[k] == stream[k];
    if end < |stream| {
      assert all[..end] == stream[..end] && all[end + 1..] == stream[end + 1..] + more;
    }
  }

  lemma {:induction false} LineIsRead(line: Bytes, rest: Bytes)
    requires LF !in line
    ensures LineOf(line + [LF] + rest) == if |line| <= MAX_REQUEST_BYTES then Complete(line, rest) else TooLong
    ensures SplitLine(line + [LF] + rest) == Some((line, rest))
    ensures SplitLine(line).None?
  {
    var all := line + [LF] + rest;
    assert all[|line|] == LF && forall k :: 0 <= k < |line| ==> all[k] == line[k];
    assert FindByte(all, LF, 0) == |line|;
    assert all[..|line|] == line && all[|line| + 1..] == rest;
  }

  // -------------------------------------------------------- one connection's course

  /** What the gate makes of a request: nothing it knows, a no, a yes to a lookup, or a dial. */
  datatype Handling = Destroyed | Refused | Allowed | Dials

  /**
   What the two sides say to each other: the line a host is asked about with, what the
   gate makes of a line, its two answers and which lines are read as a yes.
   */
  datatype Wire = Wire(
    line: Option<Bytes> -> Bytes,
    handles: Bytes -> Handling,
    yes: Bytes,
    no: Bytes,
    says: Bytes -> bool)

  datatype GatePhase = Reading | Dialling | Joined | Over

  /**
   What may happen to the gate's end: bytes from the side that asked or from the one
   dialled, the dial connecting or failing, and either side going.
   */
  datatype GateHappening =
    | FromShim(chunk: Bytes)
    | Connects
    | DialFails
    | FromDialled(chunk: Bytes)
    | ShimGone
    | DialledGone

  /**
   Where the gate's end stands: what it has read of the line, the request it handled,
   what came with the line's last byte, and what it has written to either side.
   */
  datatype Conn = Conn(
    phase: GatePhase,
    buffered: Bytes,
    request: Option<Bytes>,
    rest: Bytes,
    gone: bool,
    forwarded: Bytes,
    back: Bytes)

  const NEW := Conn(Reading, [], None, [], false, [], [])

  function Handle(w: Wire, s: Conn, request: Bytes, rest: Bytes): Conn {
    var read := s.(request := Some(request), rest := rest);
    match w.handles(request)
    case Destroyed => read.(phase := Over)
    case Refused => read.(phase := Over, back := w.no + [LF])
    case Allowed => read.(phase := Over, back := w.yes + [LF])
    case Dials => read.(phase := Dialling)
  }

  function StepRead(w: Wire, s: Conn, chunk: Bytes): Conn {
    var read := s.(buffered := s.buffered + chunk);
    match LineOf(read.buffered)
    case Partial => read
    case TooLong => read.(phase := Over)
    case Complete(request, rest) => Handle(w, read, request, rest)
  }

  /** Bytes that arrive while the gate dials have no listener, and are gone. */
  function GateStep(w: Wire, s: Conn, h: GateHappening): Conn {
    match h
    case FromShim(chunk) =>
      if s.gone then s
      else if s.phase.Reading? then StepRead(w, s, chunk)
      else if s.phase.Joined? then s.(forwarded := s.forwarded + chunk)
      else s
    case Connects =>
      if !s.phase.Dialling? then s
      else s.(phase := Joined, forwarded := s.rest, back := if s.gone then s.back else w.yes + [LF])
    case DialFails =>
      if !s.phase.Dialling? then s else s.(phase := Over, back := if s.gone then s.back else w.no + [LF])
    case FromDialled(chunk) => if s.phase.Joined? && !s.gone then s.(back := s.back + chunk) else s
    case ShimGone => if s.phase.Dialling? then s.(gone := true) else s.(phase := Over, gone := true)
    case DialledGone => if s.phase.Joined? then s.(phase := Over) else s
  }

  function GateRun(w: Wire, hs: seq<GateHappening>): Conn {
    if hs == [] then NEW else GateStep(w, GateRun(w, hs[..|hs| - 1]), hs[|hs| - 1])
  }

  /** Everything that arrived from the side that asked, for as long as it was there. */
  function Arrived(w: Wire, hs: seq<GateHappening>): Bytes {
    if hs == [] then []
    else
      var before, last := hs[..|hs| - 1], hs[|hs| - 1];
      Arrived(w, before) + if last.FromShim? && !GateRun(w, before).gone then last.chunk else []
  }

  /** What of that arrived while the gate was dialling. */
  function Missed(w: Wire, hs: seq<GateHappening>): Bytes {
    if hs == [] then []
    else
      var before, last := hs[..|hs| - 1], hs[|hs| - 1];
      Missed(w, before) + if last.FromShim? && Unheard(GateRun(w, before)) then last.chunk else []
  }

  predicate Unheard(s: Conn) {
    s.phase.Dialling? && !s.gone
  }

  /** What the dialled side sent once the two were joined. */
  function Returned(w: Wire, hs: seq<GateHappening>): Bytes {
    if hs == [] then []
    else
      var before, last := hs[..|hs| - 1], hs[|hs| - 1];
      Returned(w, before)
      + if last.FromDialled? && GateRun(w, before).phase.Joined? && !GateRun(w, before).gone then last.chunk else []
  }

  lemma {:induction false} OneMoreHappening(w: Wire, hs: seq<GateHappening>, h: GateHappening)
    ensures var s := GateRun(w, hs);
      && GateRun(w, hs + [h]) == GateStep(w, s, h)
      && Arrived(w, hs + [h]) == Arrived(w, hs) + (if h.FromShim? && !s.gone then h.chunk else [])
      && Missed(w, hs + [h]) == Missed(w, hs) + (if h.FromShim? && Unheard(s) then h.chunk else [])
      && Returned(w, hs + [h]) == Returned(w, hs)
        + (if h.FromDialled? && s.phase.Joined? && !s.gone then h.chunk else [])
  {
    assert (hs + [h])[..|hs|] == hs;
  }

  /** How far the gate's end has come, in terms of what arrived, what of it was missed, and what was sent back. */
  ghost predicate Course(w: Wire, s: Conn, arrived: Bytes, missed: Bytes, returned: Bytes) {
    && s.request == (if LineOf(arrived).Complete? then Some(LineOf(arrived).request) else None)
    && match s.phase
       case Reading =>
         && arrived == s.buffered && LineOf(arrived).Partial? && !s.gone
         && missed == s.forwarded == s.back == returned == []
       case Dialling =>
         && LineOf(arrived).Complete? && LineOf(arrived).rest == s.rest + missed
         && s.forwarded == s.back == returned == []
       case Joined =>
         && LineOf(arrived).Complete? && PassedOn(s, missed) == LineOf(arrived).rest && s.rest <= s.forwarded
         && (if s.gone then s.back == returned == [] else s.back == w.yes + [LF] + returned)
       case Over =>
         && (!s.gone ==> !LineOf(arrived).Partial?)
         && (s.forwarded != [] ==>
               LineOf(arrived).Complete? && s.rest <= s.forwarded && PassedOn(s, missed) <= LineOf(arrived).rest)
         && (s.back != [] ==> LineOf(arrived).Complete?)
         && (s.back == returned == [] || s.back == w.yes + [LF] + returned || (s.back == w.no + [LF] && returned == []))
  }

  /** What followed the line, as far as it was passed on, with what was missed put back in its place. */
  function PassedOn(s: Conn, missed: Bytes): Bytes {
    s.rest + missed + if |s.rest| <= |s.forwarded| then s.forwarded[|s.rest|..] else []
  }

  lemma {:induction false} FirstBytesKeep(w: Wire, s: Conn, chunk: Bytes)
    requires Course(w, s, s.buffered, [], []) && s.phase.Reading?
    ensures Course(w, StepRead(w, s, chunk), s.buffered + chunk, [], [])
  {
    hide LineOf;
    var rest := if LineOf(s.buffered + chunk).Complete? then LineOf(s.buffered + chunk).rest else [];
    NothingMore(rest, w.yes + [LF], []);
  }

  lemma {:induction false} MoreBytesKeep(w: Wire, s: Conn, arrived: Bytes, missed: Bytes, returned: Bytes, chunk: Bytes)
    requires Course(w, s, arrived, missed, returned) && !s.phase.Reading? && !s.gone
    ensures Course(w, GateStep(w, s, FromShim(chunk)), arrived + chunk,
              missed + if s.phase.Dialling? then chunk else [], returned)
  {
    var next := GateStep(w, s, FromShim(chunk));
    LineIsFinal(arrived, chunk);
    NothingMore(missed, [], []);
    hide LineOf;
    if LineOf(arrived).Complete? {
      Associates(s.rest, missed, chunk);
      if s.phase.Joined? {
        assert next.forwarded[|s.rest|..] == s.forwarded[|s.rest|..] + chunk;
        Associates(s.rest + missed, s.forwarded[|s.rest|..], chunk);
      }
    }
  }

  lemma {:induction false} OtherHappeningKeeps(w: Wire, s: Conn, arrived: Bytes, missed: Bytes, returned: Bytes,
      h: GateHappening)
    requires Course(w, s, arrived, missed, returned) && !h.FromShim?
    ensures Course(w, GateStep(w, s, h), arrived, missed,
              returned + if h.FromDialled? && s.phase.Joined? && !s.gone then h.chunk else [])
  {
    hide LineOf;
    NothingMore(returned, w.yes + [LF], s.rest + missed);
    match h
    case Connects => assert s.rest[|s.rest|..] == [];
    case FromDialled(chunk) => Associates(w.yes + [LF], returned, chunk);
    case _ =>
  }

  lemma {:induction false} NothingMore(a: Bytes, b: Bytes, c: Bytes)
    ensures a + [] == a && b + [] == b && c + [] == c
  {
  }

  lemma {:induction false} CourseHolds(w: Wire, hs: seq<GateHappening>)
    ensures Course(w, GateRun(w, hs), Arrived(w, hs), Missed(w, hs), Returned(w, hs))
  {
    if hs != [] {
      var before, h := hs[..|hs| - 1], hs[|hs| - 1];
      var s, arrived, missed, returned :=
        GateRun(w, before), Arrived(w, before), Missed(w, before), Returned(w, before);
      CourseHolds(w, before);
      NothingMore(arrived, missed, returned);
      if !h.FromShim? {
        OtherHappeningKeeps(w, s, arrived, missed, returned, h);
      } else if s.phase.Reading? {
        FirstBytesKeep(w, s, h.chunk);
      } else if !s.gone {
        MoreBytesKeep(w, s, arrived, missed, returned, h.chunk);
      }
    }
  }

  // ----------------------------------------------------------- what a request is answered

  function RequestIn(line: Line): Option<Bytes> {
    if line.Complete? then Some(line.request) else None
  }

  /** Nothing read is answered nothing; a refusal is a no and an allowed lookup a yes, and either is the end of it. */
  ghost predicate Answered(w: Wire, s: Conn, request: Option<Bytes>) {
    match request
    case None => (s.phase.Reading? || s.phase.Over?) && s.forwarded == s.back == []
    case Some(line) =>
      match w.handles(line)
      case Destroyed => s.phase.Over? && s.forwarded == s.back == []
      case Refused => s.phase.Over? && s.forwarded == [] && s.back == w.no + [LF]
      case Allowed => s.phase.Over? && s.forwarded == [] && s.back == w.yes + [LF]
      case Dials => !s.phase.Reading? && (s.phase.Dialling? ==> s.forwarded == s.back == [])
  }

  lemma {:induction false} RequestIsAnswered(w: Wire, hs: seq<GateHappening>)
    ensures Answered(w, GateRun(w, hs), GateRun(w, hs).request)
  {
    if hs != [] {
      hide LineOf;
      RequestIsAnswered(w, hs[..|hs| - 1]);
    }
  }

  /** What arrived alone says what is answered: a whole line is, as it is handled, and nothing else is. */
  lemma {:induction false} AnsweredAsHandled(w: Wire, hs: seq<GateHappening>)
    ensures Answered(w, GateRun(w, hs), RequestIn(LineOf(Arrived(w, hs))))
  {
    hide GateRun, Arrived, Missed, Returned, LineOf, Answered;
    CourseHolds(w, hs);
    RequestIsAnswered(w, hs);
  }

  /** The end of a dial: it connects, or it fails. */
  predicate Settles(w: Wire, hs: seq<GateHappening>, j: nat) {
    j < |hs| && GateRun(w, hs[..j]).phase.Dialling? && (hs[j].Connects? || hs[j].DialFails?)
  }

  /**
   A dial is answered as it ends, unless who asked is gone: with a yes, what the dialled
   side sends after it, when it connects, and with a no and nothing else when it fails.
   */
  ghost predicate AnsweredAs(w: Wire, s: Conn, returned: Bytes, end: GateHappening, gone: bool) {
    && (s.phase.Joined? || s.phase.Over?) && (gone ==> s.gone && s.back == returned == [])
    && (end.Connects? ==> s.rest <= s.forwarded && (!gone ==> s.back == w.yes + [LF] + returned))
    && (end.DialFails? ==> s.phase.Over? && s.forwarded == [] && (!gone ==> s.back == w.no + [LF] && returned == []))
  }

  lemma {:induction false} DialIsAnswered(w: Wire, hs: seq<GateHappening>, j: nat)
    requires Settles(w, hs, j)
    ensures AnsweredAs(w, GateRun(w, hs), Returned(w, hs), hs[j], GateRun(w, hs[..j]).gone)
  {
    hide Arrived, Missed, LineOf;
    var before, h := hs[..|hs| - 1], hs[|hs| - 1];
    var s := GateRun(w, before);
    CourseHolds(w, before);
    NothingMore(w.yes + [LF], Returned(w, before), []);
    if j < |hs| - 1 {
      assert before[..j] == hs[..j] && before[j] == hs[j];
      DialIsAnswered(w, before, j);
      if h.FromDialled? {
        Associates(w.yes + [LF], Returned(w, before), h.chunk);
      }
    }
  }

  /** Until a dial has ended it is under way, and nothing was answered or passed on. */
  lemma {:induction false} DialEndsOnlySo(w: Wire, hs: seq<GateHappening>)
    requires var line := LineOf(Arrived(w, hs)); line.Complete? && w.handles(line.request).Dials?
    ensures GateRun(w, hs).phase.Dialling? <==> forall j :: 0 <= j < |hs| ==> !Settles(w, hs, j)
  {
    hide LineOf, Arrived;
    AnsweredAsHandled(w, hs);
    CourseHolds(w, hs);
    DialGoesOn(w, hs);
  }

  lemma {:induction false} DialGoesOn(w: Wire, hs: seq<GateHappening>)
    requires GateRun(w, hs).request.Some? && w.handles(GateRun(w, hs).request.value).Dials?
    ensures GateRun(w, hs).phase.Dialling? <==> forall j :: 0 <= j < |hs| ==> !Settles(w, hs, j)
  {
    var before, h := hs[..|hs| - 1], hs[|hs| - 1];
    var s := GateRun(w, before);
    RequestIsAnswered(w, before);
    forall j | 0 <= j < |before| ensures Settles(w, hs, j) == Settles(w, before, j) {
      assert before[..j] == hs[..j];
    }
    assert Settles(w, hs, |before|) <==> s.phase.Dialling? && (h.Connects? || h.DialFails?);
    if s.request.Some? {
      hide LineOf, Settles;
      DialGoesOn(w, before);
      forall j | 0 <= j < |hs| ensures Settles(w, hs, j) == if j < |before| then Settles(w, before, j)
          else s.phase.Dialling? && (h.Connects? || h.DialFails?) {
      }
    } else {
      NothingSettles(w, before);
    }
  }

  lemma {:induction false} NothingSettles(w: Wire, hs: seq<GateHappening>)
    requires GateRun(w, hs).request.None?
    ensures forall j :: 0 <= j < |hs| ==> !Settles(w, hs, j)
  {
    if hs != [] {
      hide LineOf;
      var before := hs[..|hs| - 1];
      NothingSettles(w, before);
      RequestIsAnswered(w, before);
      forall j | 0 <= j < |before| ensures Settles(w, hs, j) == Settles(w, before, j) {
        assert before[..j] == hs[..j];
      }
    }
  }

  // ---------------------------------------------------- what is forwarded, and what is not

  /** No bytes arrive between the read that ends the line and the dial's connecting. */
  ghost predicate Unhurried(w: Wire, hs: seq<GateHappening>) {
    forall j :: 0 <= j < |hs| && hs[j].FromShim? && hs[j].chunk != [] ==> !Unheard(GateRun(w, hs[..j]))
  }

  lemma {:induction false} UnhurriedOneMore(w: Wire, hs: seq<GateHappening>, h: GateHappening)
    ensures Unhurried(w, hs + [h])
      <==> Unhurried(w, hs) && (h.FromShim? && h.chunk != [] ==> !Unheard(GateRun(w, hs)))
  {
    hide GateRun, Unheard;
    var all := hs + [h];
    forall j | 0 <= j < |hs| ensures all[..j] == hs[..j] && all[j] == hs[j] {
    }
    assert all[..|hs|] == hs && all[|hs|] == h;
  }

  lemma {:induction false} NothingMissedIff(w: Wire, hs: seq<GateHappening>)
    ensures Missed(w, hs) == [] <==> Unhurried(w, hs)
  {
    if hs != [] {
      hide GateRun, Unheard, Unhurried;
      var before, h := hs[..|hs| - 1], hs[|hs| - 1];
      assert before + [h] == hs;
      NothingMissedIff(w, before);
      UnhurriedOneMore(w, before, h);
    }
  }

  /**
   Once the two are joined, all that followed the line was forwarded if and only if
   nothing arrived while the gate was dialling; whatever did is what is missing.
   */
  lemma {:induction false} AllIsForwardedExactlyWhen(w: Wire, hs: seq<GateHappening>)
    requires GateRun(w, hs).phase.Joined?
    ensures LineOf(Arrived(w, hs)).Complete?
    ensures var forwarded, after := GateRun(w, hs).forwarded, LineOf(Arrived(w, hs)).rest;
      (forwarded == after <==> Unhurried(w, hs)) && |after| == |forwarded| + |Missed(w, hs)|
  {
    hide GateRun, Arrived, Missed, Unhurried;
    CourseHolds(w, hs);
    NothingMissedIff(w, hs);
    var s, missed := GateRun(w, hs), Missed(w, hs);
    assert s.forwarded == s.rest + s.forwarded[|s.rest|..];
    if missed == [] {
      assert s.rest + missed == s.rest;
    }
  }

  lemma {:induction false} LineIsDialled(w: Wire, line: Bytes, more: Bytes)
    requires LF !in line && |line| <= MAX_REQUEST_BYTES && w.handles(line).Dials?
    ensures GateStep(w, NEW, FromShim(line + [LF] + more))
      == Conn(Dialling, line + [LF] + more, Some(line), more, false, [], [])
  {
    hide LineOf;
    LineIsRead(line, more);
    var nothing: Bytes := [];
    assert nothing + (line + [LF] + more) == line + [LF] + more;
  }

  /** So it happens: what comes with the line's last byte is forwarded, and what comes in a read after it is lost. */
  lemma {:induction false} LateBytesAreLost(w: Wire, line: Bytes, more: Bytes)
    requires LF !in line && |line| <= MAX_REQUEST_BYTES && w.handles(line).Dials?
    ensures GateRun(w, [FromShim(line + [LF] + more), Connects]).forwarded == more
    ensures GateRun(w, [FromShim(line + [LF]), FromShim(more), Connects]).forwarded == []
  {
    hide GateRun, StepRead;
    var early, late := FromShim(line + [LF] + more), FromShim(line + [LF]);
    LineIsDialled(w, line, more);
    TwoHappenings(w, early, Connects);
    LineIsDialled(w, line, []);
    NothingMore(line + [LF], [], []);
    TwoHappenings(w, late, FromShim(more));
    OneMoreHappening(w, [late, FromShim(more)], Connects);
    assert [late, FromShim(more)] + [Connects] == [late, FromShim(more), Connects];
  }

  lemma {:induction false} TwoHappenings(w: Wire, g: GateHappening, h: GateHappening)
    ensures GateRun(w, [g, h]) == GateStep(w, GateStep(w, NEW, g), h)
  {
    var nothing: seq<GateHappening> := [];
    OneMoreHappening(w, nothing, g);
    OneMoreHappening(w, [g], h);
    assert nothing + [g] == [g] && [g] + [h] == [g, h];
  }

  /** The gate's end of one connection. */
  class GateConnection {
    const w: Wire
    var phase: GatePhase
    var buffered: Bytes
    var request: Option<Bytes>
    var rest: Bytes
    var gone: bool
    /** What was written to the dialled side, and to the side that asked. */
    var forwarded: Bytes
    var back: Bytes
    ghost var seen: seq<GateHappening>

    ghost function State(): Conn
      reads this
    {
      Conn(phase, buffered, request, rest, gone, forwarded, back)
    }

    ghost predicate Valid()
      reads this
    {
      State() == GateRun(w, seen)
    }

    constructor (w: Wire)
      ensures Valid() && this.w == w && seen == []
    {
      this.w := w;
      phase, buffered, request, rest, gone, forwarded, back, seen := Reading, [], None, [], false, [], [], [];
    }

    /** The listener that reads the line, which is off once the line has ended. */
    method ReadLine(chunk: Bytes)
      requires phase.Reading? && back == []
      modifies `phase, `buffered, `request, `rest, `back
      ensures State() == StepRead(w, old(State()), chunk)
    {
      hide FindByte;
      buffered := buffered + chunk;
      var end := FindByte(buffered, LF, 0);
      if end == |buffered| {
        if |buffered| > MAX_REQUEST_BYTES {
          phase := Over;
        }
        return;
      }
      if end > MAX_REQUEST_BYTES {
        phase := Over;
        return;
      }
      request, rest := Some(buffered[..end]), buffered[end + 1..];
      match w.handles(buffered[..end])
      case Destroyed => phase := Over;
      case Refused =>
        back := back + (w.no + [LF]);
        phase := Over;
      case Allowed =>
        back := back + (w.yes + [LF]);
        phase := Over;
      case Dials => phase := Dialling;
    }

    method OnData(chunk: Bytes)
      requires Valid()
      modifies this
      ensures Valid() && seen == old(seen) + [FromShim(chunk)]
    {
      OneMoreHappening(w, seen, FromShim(chunk));
      CourseHolds(w, seen);
      hide GateRun, LineOf, StepRead;
      seen := seen + [FromShim(chunk)];
      if gone {
        return;
      }
      match phase
      case Reading => ReadLine(chunk);
      case Dialling =>
      case Joined => forwarded := forwarded + chunk;
      case Over =>
    }

    method OnConnect()
      requires Valid()
      modifies this
      ensures Valid() && seen == old(seen) + [Connects]
    {
      OneMoreHappening(w, seen, Connects);
      CourseHolds(w, seen);
      seen := seen + [Connects];
      if phase.Dialling? {
        if !gone {
          back := back + (w.yes + [LF]);
        }
        if rest != [] {
          forwarded := forwarded + rest;
        }
        phase := Joined;
      }
    }

    /** The dial was refused, or its time was up. */
    method OnDialFailed()
      requires Valid()
      modifies this
      ensures Valid() && seen == old(seen) + [DialFails]
    {
      OneMoreHappening(w, seen, DialFails);
      CourseHolds(w, seen);
      seen := seen + [DialFails];
      if phase.Dialling? {
        if !gone {
          back := back + (w.no + [LF]);
        }
        phase := Over;
      }
    }

    method OnDialledData(chunk: Bytes)
      requires Valid()
      modifies this
      ensures Valid() && seen == old(seen) + [FromDialled(chunk)]
    {
      OneMoreHappening(w, seen, FromDialled(chunk));
      seen := seen + [FromDialled(chunk)];
      if phase.Joined? && !gone {
        back := back + chunk;
      }
    }

    /** The side that asked went; a dial under way is not called off by it. */
    method OnShimGone()
      requires Valid()
      modifies this
      ensures Valid() && seen == old(seen) + [ShimGone]
    {
      OneMoreHappening(w, seen, ShimGone);
      seen := seen + [ShimGone];
      gone := true;
      if !phase.Dialling? {
        phase := Over;
      }
    }

    method OnDialledGone()
      requires Valid()
      modifies this
      ensures Valid() && seen == old(seen) + [DialledGone]
    {
      OneMoreHappening(w, seen, DialledGone);
      seen := seen + [DialledGone];
      if phase.Joined? {
        phase := Over;
      }
    }
  }

  /** Whatever way a stream is cut, the gate reads, drops or waits for the same request line. */
  method ReadRequest(w: Wire, chunks: seq<Bytes>) returns (gate: GateConnection)
    ensures fresh(gate) && gate.Valid() && gate.w == w
    ensures gate.request == RequestIn(LineOf(Flatten(chunks)))
    ensures gate.phase.Reading? <==> LineOf(Flatten(chunks)).Partial?
  {
    gate := new GateConnection(w);
    for i := 0 to |chunks|
      invariant fresh(gate) && gate.Valid() && gate.w == w && !gate.gone
      invariant Arrived(w, gate.seen) == Flatten(chunks[..i])
    {
      assert chunks[..i + 1][..i] == chunks[..i];
      OneMoreHappening(w, gate.seen, FromShim(chunks[i]));
      gate.OnData(chunks[i]);
    }
    assert chunks[..|chunks|] == chunks;
    CourseHolds(w, gate.seen);
  }
}
