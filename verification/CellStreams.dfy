/**
 The shim's listener: it peeks at a connection until it knows what to ask the gate for,
 and carries it both ways once the gate says yes. Chunks arrive cut in any way, and what
 it asks and passes on is a function of the bytes alone.
 */
module CellStreams {
  import opened Prelude
  import opened CellWire
  import opened CellPeek

  /** What a peek has decided of a stream: nothing yet, or the host the gate is asked about. */
  function Asked(peek: Bytes -> Peeked, stream: Bytes): Option<Option<Bytes>> {
    match peek(stream)
    case More => None
    case Read(name) => Some(name)
  }

  /** A first line and what follows it, once the line has ended. */
  function SplitLine(bytes: Bytes): Option<(Bytes, Bytes)> {
    var end := FindByte(bytes, LF, 0);
    if end == |bytes| then None else Some((bytes[..end], bytes[end + 1..]))
  }

  lemma {:induction false} SplitLineIsFinal(bytes: Bytes, more: Bytes)
    ensures SplitLine(bytes).Some? ==>
      SplitLine(bytes + more) == Some((SplitLine(bytes).value.0, SplitLine(bytes).value.1 + more))
  {
    var end, all := FindByte(bytes, LF, 0), bytes + more;
    if end < |bytes| {
      assert forall k :: 0 <= k < |bytes| ==> all[k] == bytes[k];
      assert all[..end] == bytes[..end] && all[end + 1..] == bytes[end + 1..] + more;
    }
  }

  datatype Phase = Peeking | Asking | Piping | Closed

  /** What may happen to a carried connection: bytes from either side, or anything that ends it. */
  datatype Happening = FromClient(chunk: Bytes) | FromGate(chunk: Bytes) | Fails

  /**
   One carried connection, from its first byte on. `says` is whether a reply line of
   the gate's is a yes; a line that cannot be read is none.
   */
  class Carrier {
    const peek: Bytes -> Peeked
    const says: Bytes -> bool
    var phase: Phase
    /** What was read before the gate was asked. */
    var buffered: Bytes
    /** What arrived from the client while the gate was asked and the client's side was paused. */
    var held: Bytes
    var asked: Option<Option<Bytes>>
    /** What the gate has answered so far, its line not ended yet. */
    var reply: Bytes
    /** What was written to the other side, and to the client. */
    var up: Bytes
    var down: Bytes
    /** Everything that arrived from the client, and from the gate, while the connection stood. */
    ghost var fromClient: Bytes
    ghost var fromGate: Bytes

    /**
     The gate is asked exactly what the client's bytes say. Once it said yes, all that
     arrived from either side, but for the gate's reply line, was written to the other;
     until then, and when it says no, nothing was.
     */
    ghost predicate Valid()
      reads this
    {
      && Stable(peek)
      && match phase
         case Peeking =>
           asked.None? && peek(buffered).More? && fromClient == buffered && fromGate == [] && up == down == []
         case Asking =>
           && asked.Some? && peek(buffered) == Read(asked.value) && fromClient == buffered + held
           && reply == fromGate && SplitLine(fromGate).None? && up == down == []
         case Piping =>
           && asked.Some? && asked == Asked(peek, fromClient) && up == fromClient
           && SplitLine(fromGate).Some? && says(SplitLine(fromGate).value.0) && down == SplitLine(fromGate).value.1
         case Closed =>
           && (up == fromClient || up == []) && asked == Asked(peek, fromClient) && (up != [] ==> asked.Some?)
           && (up != [] || down != [] ==>
                 SplitLine(fromGate).Some? && says(SplitLine(fromGate).value.0) && down == SplitLine(fromGate).value.1)
    }

    constructor (peek: Bytes -> Peeked, says: Bytes -> bool)
      requires Stable(peek) && peek([]) == More
      ensures Valid() && this.peek == peek && this.says == says && phase.Peeking? && fromClient == []
    {
      this.peek, this.says := peek, says;
      phase, buffered, held, asked, reply, up, down, fromClient, fromGate := Peeking, [], [], None, [], [], [], [], [];
    }

    /** However far the connection has come, what it asked is what the client's bytes say. */
    lemma {:induction false} AskedIsRead()
      requires Valid()
      ensures asked == Asked(peek, fromClient)
    {
      assert buffered + [] == buffered;
    }

    method OnClientData(chunk: Bytes)
      requires Valid()
      modifies this
      ensures Valid() && fromGate == old(fromGate) && (old(asked.Some?) ==> asked == old(asked))
      ensures if old(phase.Closed?)
        then phase == old(phase) && fromClient == old(fromClient) && up == old(up) && down == old(down)
              else !phase.Closed? && fromClient == old(fromClient) + chunk
    {
      match phase
      case Closed =>
      case Peeking =>
        buffered := buffered + chunk;
        fromClient := fromClient + chunk;
        match peek(buffered) {
          case More =>
          case Read(name) =>
            asked, held, reply, phase := Some(name), [], [], Asking;
            assert buffered + held == buffered;
        }
      case Asking =>
        Associates(buffered, held, chunk);
        held := held + chunk;
        fromClient := fromClient + chunk;
      case Piping =>
        up := up + chunk;
        fromClient := fromClient + chunk;
    }

    /** The gate's reply line, whole or in part. */
    method OnReply(chunk: Bytes)
      requires Valid() && phase.Asking?
      modifies `phase, `reply, `up, `down, `fromGate
      ensures Valid() && fromGate == old(fromGate) + chunk && phase == AfterReply(says, fromGate)
    {
      AskedIsRead();
      hide SplitLine, FindByte, Stable, Asked;
      fromGate := fromGate + chunk;
      reply := reply + chunk;
      match SplitLine(reply)
      case None =>
      case Some(line) =>
        if says(line.0) {
          up := buffered + held;
          down := line.1;
          phase := Piping;
        } else {
          phase := Closed;
        }
    }

    /** What comes from the gate's side: its reply, and after a yes what the other side sends. */
    method OnGateData(chunk: Bytes)
      requires Valid()
      modifies this
      ensures Valid() && fromClient == old(fromClient) && asked == old(asked)
      ensures old(phase.Closed? || phase.Peeking?) ==>
        phase == old(phase) && fromGate == old(fromGate) && up == old(up) && down == old(down)
      ensures old(phase.Piping?) ==> phase.Piping? && fromGate == old(fromGate) + chunk
      ensures old(phase.Asking?) ==> fromGate == old(fromGate) + chunk && phase == AfterReply(says, fromGate)
    {
      match phase
      case Closed =>
      case Peeking =>
      case Asking => OnReply(chunk);
      case Piping =>
        SplitLineIsFinal(fromGate, chunk);
        hide SplitLine, FindByte, Stable, Asked;
        fromGate := fromGate + chunk;
        down := down + chunk;
    }

    /** Either side is gone, or the time to peek or to be answered is up: both sides are closed. */
    method OnFailure()
      requires Valid()
      modifies this
      ensures Valid() && phase.Closed?
      ensures fromClient == old(fromClient) && fromGate == old(fromGate) && asked == old(asked)
      ensures up == old(up) && down == old(down)
    {
      AskedIsRead();
      phase := Closed;
    }
  }

  /** Where a connection stands that asked the gate and has these bytes of its answer. */
  function AfterReply(says: Bytes -> bool, answer: Bytes): Phase {
    match SplitLine(answer)
    case None => Asking
    case Some(line) => if says(line.0) then Piping else Closed
  }

  function ClientBytes(happenings: seq<Happening>): Bytes {
    if happenings == [] then []
    else
      var before, last := ClientBytes(happenings[..|happenings| - 1]), happenings[|happenings| - 1];
      if last.FromClient? then before + last.chunk else before
  }

  /**
   A connection carried through anything. However the client's bytes are cut and
   whatever comes between, the gate is asked about the host they name; nothing reaches
   the other side but a beginning of what the client sent, and nothing at all before the
   gate said yes; and while it stands after that, all of it has.
   */
  method Carry(peek: Bytes -> Peeked, says: Bytes -> bool, happenings: seq<Happening>) returns (c: Carrier)
    requires Stable(peek) && peek([]) == More
    ensures fresh(c) && c.Valid() && c.peek == peek && c.says == says
    ensures !c.phase.Closed? ==> c.asked == Asked(peek, ClientBytes(happenings))
    ensures c.up <= ClientBytes(happenings)
    ensures c.up != [] || c.down != [] ==> SplitLine(c.fromGate).Some? && says(SplitLine(c.fromGate).value.0)
    ensures c.phase.Piping? ==> c.up == ClientBytes(happenings) && c.down == SplitLine(c.fromGate).value.1
  {
    c := new Carrier(peek, says);
    for i := 0 to |happenings|
      invariant fresh(c) && c.Valid() && c.peek == peek && c.says == says
      invariant c.fromClient <= ClientBytes(happenings[..i])
      invariant !c.phase.Closed? ==> c.fromClient == ClientBytes(happenings[..i])
    {
      assert happenings[..i + 1][..i] == happenings[..i];
      match happenings[i]
      case FromClient(chunk) => c.OnClientData(chunk);
      case FromGate(chunk) => c.OnGateData(chunk);
      case Fails => c.OnFailure();
    }
    assert happenings[..|happenings|] == happenings;
    c.AskedIsRead();
  }

  lemma {:induction false} PeeksAreCarried()
    ensures Stable(ServerName) && ServerName([]) == More
    ensures Stable(RequestHost) && RequestHost([]) == More
  {
    ServerNameIsStable();
    RequestHostIsStable();
  }
}
