/**
 The animated PNG a recording is assembled into, byte for byte, and the splitter
 that takes it apart again. The checksum of a chunk is a parameter: any function
 from the checked bytes to four bytes.
 */
module Apng {
  import opened Prelude

  type Quad = b: Bytes | |b| == 4 witness [0, 0, 0, 0]

  type Checksum = Bytes -> Quad

  const SIGNATURE: Bytes := [0x89, 0x50, 0x4e, 0x47, 0x0d, 0x0a, 0x1a, 0x0a]
  const IHDR: Quad := [0x49, 0x48, 0x44, 0x52]
  const IDAT: Quad := [0x49, 0x44, 0x41, 0x54]
  const IEND: Quad := [0x49, 0x45, 0x4e, 0x44]
  const ACTL: Quad := [0x61, 0x63, 0x54, 0x4c]
  const FCTL: Quad := [0x66, 0x63, 0x54, 0x4c]
  const FDAT: Quad := [0x66, 0x64, 0x41, 0x54]

  const MAX_DELAY_MS := 65535
  const TWO_32 := 0x1_0000_0000

  /** `OutOfRange` is the error of a number read past a buffer's end or too large for the bytes it is written in. */
  datatype ApngError = NotPng | Truncated(kind: Quad) | NoHeaderOrPixels | NoFrames | NotAnimated | OutOfRange

  datatype Frame = Frame(png: Bytes, delayMs: real)

  datatype Part = Part(kind: Quad, body: Bytes)

  datatype PngParts = PngParts(header: Bytes, data: Bytes)

  datatype Kept = Kept(data: Bytes, delayMs: real)

  datatype Assembled = Assembled(apng: Bytes, frames: nat, skipped: nat)

  // --------------------------------------------------------------------- chunks

  function Chunk(crc: Checksum, part: Part): Bytes
    requires |part.body| < TWO_32
  {
    U32(|part.body|) + part.kind + part.body + crc(part.kind + part.body)
  }

  datatype Step = End | Cut(kind: Quad) | Next(part: Part, offset: nat)

  /** What the chunk reader finds at an offset. */
  function ChunkAt(png: Bytes, offset: nat): (step: Step)
    ensures step.Next? ==> |step.part.body| < TWO_32
  {
    if offset + 8 > |png| then End
    else
      var length := ReadU32(png, offset);
      var kind: Quad := png[offset + 4..offset + 8];
      if offset + 8 + length > |png| then Cut(kind)
      else Next(Part(kind, png[offset + 8..offset + 8 + length]), offset + 12 + length)
  }

  /** The chunks from an offset on, up to the end chunk or the end of the bytes. */
  function ChunksFrom(png: Bytes, offset: nat): Result<seq<Part>, ApngError>
    decreases if offset < |png| then |png| - offset else 0
  {
    match ChunkAt(png, offset)
    case End => Ok([])
    case Cut(kind) => Err(Truncated(kind))
    case Next(part, next) =>
      if part.kind == IEND then Ok([part])
      else
        match ChunksFrom(png, next)
        case Err(e) => Err(e)
        case Ok(rest) => Ok([part] + rest)
  }

  function Render(crc: Checksum, parts: seq<Part>): Bytes
    requires Sized(parts)
  {
    if parts == [] then [] else Chunk(crc, parts[0]) + Render(crc, parts[1..])
  }

  ghost predicate Sized(parts: seq<Part>) {
    forall i :: 0 <= i < |parts| ==> |parts[i].body| < TWO_32
  }

  /** Chunks that end at their one end chunk. */
  ghost predicate Closed(parts: seq<Part>) {
    && parts != []
    && parts[|parts| - 1].kind == IEND
    && forall i :: 0 <= i < |parts| - 1 ==> parts[i].kind != IEND
  }

  lemma {:induction false} ChunkIsRead(crc: Checksum, png: Bytes, offset: nat, part: Part, after: Bytes)
    requires |part.body| < TWO_32
    requires offset <= |png| && png[offset..] == Chunk(crc, part) + after
    ensures var next := offset + |Chunk(crc, part)|;
      ChunkAt(png, offset) == Next(part, next) && next <= |png| && png[next..] == after
  {
    var tail, length, n := png[offset..], U32(|part.body|), |part.body|;
    assert tail == length + part.kind + part.body + crc(part.kind + part.body) + after;
    assert tail[..4] == length && tail[4..8] == part.kind && tail[8..8 + n] == part.body && tail[12 + n..] == after;
    assert forall i :: 0 <= i < 4 ==> png[offset + i] == tail[i] == length[i];
    assert png[offset + 4..offset + 8] == tail[4..8];
    assert png[offset + 8..offset + 8 + n] == tail[8..8 + n];
    assert png[offset + 12 + n..] == tail[12 + n..];
  }

  lemma {:induction false} ReadOneMore(png: Bytes, offset: nat, part: Part, next: nat, rest: seq<Part>)
    requires ChunkAt(png, offset) == Next(part, next) && part.kind != IEND
    requires ChunksFrom(png, next) == Ok(rest)
    ensures ChunksFrom(png, offset) == Ok([part] + rest)
  {
  }

  lemma {:induction false} ClosedTail(parts: seq<Part>)
    requires Closed(parts) && |parts| > 1
    ensures parts[0].kind != IEND && Closed(parts[1..])
  {
  }

  /** Reading what was rendered gives the chunks back, whatever precedes and follows them. */
  lemma {:induction false} RenderedIsRead(crc: Checksum, png: Bytes, offset: nat, parts: seq<Part>, after: Bytes)
    requires Sized(parts) && Closed(parts)
    requires offset <= |png| && png[offset..] == Render(crc, parts) + after
    ensures ChunksFrom(png, offset) == Ok(parts)
    decreases |parts|
  {
    var first, next := parts[0], offset + |Chunk(crc, parts[0])|;
    var rest := Render(crc, parts[1..]);
    Associates(Chunk(crc, first), rest, after);
    ChunkIsRead(crc, png, offset, first, rest + after);
    if |parts| > 1 {
      ClosedTail(parts);
      RenderedIsRead(crc, png, next, parts[1..], after);
      ReadOneMore(png, offset, first, next, parts[1..]);
      assert [first] + parts[1..] == parts;
    } else {
      assert parts == [first];
    }
  }

  lemma {:induction false} RenderAppend(crc: Checksum, a: seq<Part>, b: seq<Part>)
    requires Sized(a) && Sized(b)
    ensures Sized(a + b) && Render(crc, a + b) == Render(crc, a) + Render(crc, b)
    decreases |a|
  {
    if a == [] {
      assert a + b == b;
    } else {
      assert (a + b)[1..] == a[1..] + b && (a + b)[0] == a[0];
      RenderAppend(crc, a[1..], b);
      Associates(Chunk(crc, a[0]), Render(crc, a[1..]), Render(crc, b));
    }
  }

  // ------------------------------------------------------------ one frame's parts

  function HeaderOf(parts: seq<Part>): Option<Bytes> {
    if parts == [] then None
    else
      var last := parts[|parts| - 1];
      if last.kind == IHDR then Some(last.body) else HeaderOf(parts[..|parts| - 1])
  }

  function PixelsOf(parts: seq<Part>): seq<Bytes> {
    if parts == [] then []
    else
      var before, last := PixelsOf(parts[..|parts| - 1]), parts[|parts| - 1];
      if last.kind == IDAT then before + [last.body] else before
  }

  predicate HasSignature(png: Bytes) {
    |png| >= |SIGNATURE| && png[..|SIGNATURE|] == SIGNATURE
  }

  /** What an animation takes from a PNG: the body of its last header chunk and all its pixel chunks joined. */
  function PartsOf(png: Bytes): Result<PngParts, ApngError> {
    if !HasSignature(png) then Err(NotPng)
    else
      match ChunksFrom(png, |SIGNATURE|)
      case Err(e) => Err(e)
      case Ok(parts) =>
        var header, data := HeaderOf(parts), PixelsOf(parts);
        if header.None? || |header.value| < 13 || data == [] then Err(NoHeaderOrPixels)
        else Ok(PngParts(header.value, Flatten(data)))
  }

  /** What the reader has still to read makes the whole, once the chunks already read are put before it. */
  lemma {:induction false} ChunksSplit(png: Bytes, offset: nat, seen: seq<Part>, whole: Result<seq<Part>, ApngError>)
    requires ChunkAt(png, offset).Next? && ChunkAt(png, offset).part.kind != IEND
    requires whole == Continue(seen, ChunksFrom(png, offset))
    ensures var step := ChunkAt(png, offset);
      whole == Continue(seen + [step.part], ChunksFrom(png, step.offset))
  {
    var step := ChunkAt(png, offset);
    if ChunksFrom(png, step.offset).Ok? {
      assert seen + ([step.part] + ChunksFrom(png, step.offset).value)
        == seen + [step.part] + ChunksFrom(png, step.offset).value;
    }
  }

  function Continue(seen: seq<Part>, rest: Result<seq<Part>, ApngError>): Result<seq<Part>, ApngError> {
    if rest.Ok? then Ok(seen + rest.value) else rest
  }

  lemma {:induction false} PartsOneMore(seen: seq<Part>, part: Part)
    ensures HeaderOf(seen + [part]) == if part.kind == IHDR then Some(part.body) else HeaderOf(seen)
    ensures PixelsOf(seen + [part]) == if part.kind == IDAT then PixelsOf(seen) + [part.body] else PixelsOf(seen)
  {
    assert (seen + [part])[..|seen|] == seen;
  }

  method ReadParts(png: Bytes) returns (r: Result<PngParts, ApngError>)
    ensures r == PartsOf(png)
  {
    if !HasSignature(png) {
      return Err(NotPng);
    }
    var header: Option<Bytes> := None;
    var data: seq<Bytes> := [];
    var offset := |SIGNATURE|;
    ghost var seen: seq<Part> := [];
    ghost var whole := ChunksFrom(png, offset);
    assert whole == Continue([], whole) by {
      if whole.Ok? { assert [] + whole.value == whole.value; }
    }
    assert HeaderOf([]).None? && PixelsOf([]) == [];
    hide HeaderOf, PixelsOf, Flatten;
    var more := true;
    while more
      invariant more ==> whole == Continue(seen, ChunksFrom(png, offset))
      invariant !more ==> whole == Ok(seen)
      invariant header == HeaderOf(seen) && data == PixelsOf(seen)
      decreases more, if offset < |png| then |png| - offset else 0
    {
      match ChunkAt(png, offset)
      case End =>
        more := false;
        assert seen + [] == seen;
      case Cut(kind) =>
        return Err(Truncated(kind));
      case Next(part, next) =>
        if part.kind != IEND {
          ChunksSplit(png, offset, seen, whole);
        }
        PartsOneMore(seen, part);
        seen := seen + [part];
        if part.kind == IHDR {
          header := Some(part.body);
        } else if part.kind == IDAT {
          data := data + [part.body];
        }
        more := part.kind != IEND;
        offset := next;
    }
    if header.None? || |header.value| < 13 || data == [] {
      return Err(NoHeaderOrPixels);
    }
    return Ok(PngParts(header.value, Flatten(data)));
  }

  // ------------------------------------------------------------------- assembling

  /** How the language rounds: halves go up. */
  function Round(x: real): int {
    (x + 0.5).Floor
  }

  function ClampedDelay(delayMs: real): (d: nat)
    ensures d <= MAX_DELAY_MS
  {
    Min(MAX_DELAY_MS, Max(0, Round(delayMs)))
  }

  /** The frames that share the canvas, in order; the first frame that is not a PNG ends it all. */
  function KeepFrames(frames: seq<Frame>, header: Bytes): Result<seq<Kept>, ApngError> {
    if frames == [] then Ok([])
    else
      var before, last := KeepFrames(frames[..|frames| - 1], header), frames[|frames| - 1];
      if before.Err? then before
      else
        match PartsOf(last.png)
        case Err(e) => Err(e)
        case Ok(parts) => if parts.header == header then Ok(before.value + [Kept(parts.data, last.delayMs)]) else before
  }

  function FrameControlBody(sequence: nat, header: Bytes, delayMs: real): (body: Bytes)
    requires sequence < TWO_32 && |header| >= 8
    ensures |body| == 26
  {
    U32(sequence) + header[..8] + [0, 0, 0, 0, 0, 0, 0, 0] + U16(ClampedDelay(delayMs)) + U16(1000) + [0, 0]
  }

  /** The two chunks of the `i`-th kept frame: its control and its pixels, numbered in one sequence. */
  function FrameParts(header: Bytes, frame: Kept, i: nat): (parts: seq<Part>)
    requires |header| >= 8 && 2 * i < TWO_32
  {
    if i == 0 then [Part(FCTL, FrameControlBody(0, header, frame.delayMs)), Part(IDAT, frame.data)]
    else [Part(FCTL, FrameControlBody(2 * i - 1, header, frame.delayMs)), Part(FDAT, U32(2 * i) + frame.data)]
  }

  /** Whether one frame's numbers fit the bytes they are written in. */
  predicate FrameFits(frame: Kept, i: nat) {
    2 * i < TWO_32 && |frame.data| + (if i == 0 then 0 else 4) < TWO_32
  }

  predicate FramesFit(kept: seq<Kept>, n: nat)
    requires n <= |kept|
  {
    forall i :: 0 <= i < n ==> FrameFits(kept[i], i)
  }

  /** Every number the animation writes fits. */
  predicate Writable(header: Bytes, kept: seq<Kept>) {
    |header| < TWO_32 && |kept| < TWO_32 && FramesFit(kept, |kept|)
  }

  /** The frames' chunks, frame by frame. */
  function FrameList(header: Bytes, kept: seq<Kept>): (list: seq<seq<Part>>)
    requires |header| >= 8 && FramesFit(kept, |kept|)
    ensures |list| == |kept| && forall i :: 0 <= i < |kept| ==> list[i] == FrameParts(header, kept[i], i)
  {
    seq(|kept|, i requires 0 <= i < |kept| && FrameFits(kept[i], i) => FrameParts(header, kept[i], i))
  }

  function Opening(header: Bytes, n: nat): seq<Part>
    requires n < TWO_32
  {
    [Part(IHDR, header), Part(ACTL, U32(n) + U32(1))]
  }

  function ApngParts(header: Bytes, kept: seq<Kept>): seq<Part>
    requires |header| >= 8 && Writable(header, kept)
  {
    Opening(header, |kept|) + Flatten(FrameList(header, kept)) + [Part(IEND, [])]
  }

  function Pair(crc: Checksum, a: Part, b: Part): Bytes
    requires |a.body| < TWO_32 && |b.body| < TWO_32
  {
    Chunk(crc, a) + Chunk(crc, b)
  }

  /** One frame's two chunks, as bytes. */
  function FrameBytes(crc: Checksum, header: Bytes, frame: Kept, i: nat): Bytes
    requires |header| >= 8 && FrameFits(frame, i)
  {
    Pair(crc, FrameParts(header, frame, i)[0], FrameParts(header, frame, i)[1])
  }

  /** The frames' bytes, frame by frame. */
  function FrameBytesList(crc: Checksum, header: Bytes, kept: seq<Kept>, n: nat): (list: seq<Bytes>)
    requires |header| >= 8 && n <= |kept| && FramesFit(kept, n)
    ensures |list| == n && forall i :: 0 <= i < n ==> list[i] == FrameBytes(crc, header, kept[i], i)
  {
    seq(n, i requires 0 <= i < n && FrameFits(kept[i], i) => FrameBytes(crc, header, kept[i], i))
  }

  /** The animation's bytes, or the error of a number in it that does not fit. */
  function Written(crc: Checksum, header: Bytes, kept: seq<Kept>): Result<Bytes, ApngError>
    requires |header| >= 8
  {
    if !Writable(header, kept) then Err(OutOfRange)
    else
      var opening := Opening(header, |kept|);
      Ok(SIGNATURE + (Pair(crc, opening[0], opening[1])
        + (Flatten(FrameBytesList(crc, header, kept, |kept|)) + Chunk(crc, Part(IEND, [])))))
  }

  /** The canvas, and the frames that are on it. */
  function Planned(frames: seq<Frame>): Result<(Bytes, seq<Kept>), ApngError> {
    if frames == [] then Err(NoFrames)
    else
      match PartsOf(frames[0].png)
      case Err(e) => Err(e)
      case Ok(first) =>
        match KeepFrames(frames, first.header)
        case Err(e) => Err(e)
        case Ok(kept) => Ok((first.header, kept))
  }

  function Assemble(crc: Checksum, frames: seq<Frame>): Result<Assembled, ApngError> {
    match Planned(frames)
    case Err(e) => Err(e)
    case Ok((header, kept)) =>
      KeptAreFrames(frames, header);
      match Written(crc, header, kept)
      case Err(e) => Err(e)
      case Ok(apng) => Ok(Assembled(apng, |kept|, |frames| - |kept|))
  }

  lemma {:induction false} KeptAreFrames(frames: seq<Frame>, header: Bytes)
    ensures KeepFrames(frames, header).Ok? ==> |KeepFrames(frames, header).value| <= |frames|
  {
    if frames != [] {
      KeptAreFrames(frames[..|frames| - 1], header);
    }
  }

  // ------------------------------------------------------ assembling, step by step

  /** The control body's fields, by offset. */
  lemma {:induction false} FrameControlFields(sequence: nat, header: Bytes, delayMs: real)
    requires sequence < TWO_32 && |header| >= 8
    ensures var body := FrameControlBody(sequence, header, delayMs);
      && body[0..4] == U32(sequence) && body[4..12] == header[..8] && body[20..22] == U16(ClampedDelay(delayMs))
      && body[22..24] == U16(1000)
      && forall i :: 12 <= i < 20 || 24 <= i < 26 ==> body[i] == 0
  {
  }

  /** One frame's control chunk body, written field by field at its offsets. */
  method FrameControl(sequence: nat, header: Bytes, delayMs: real) returns (body: Bytes)
    requires sequence < TWO_32 && |header| >= 8
    ensures body == FrameControlBody(sequence, header, delayMs)
  {
    var buffer := new Byte[26](_ => 0);
    WriteAt(buffer, 0, U32(sequence));
    WriteAt(buffer, 4, header[..8]);
    WriteAt(buffer, 20, U16(ClampedDelay(delayMs)));
    WriteAt(buffer, 22, U16(1000));
    WriteAt(buffer, 24, [0, 0]);
    FrameControlFields(sequence, header, delayMs);
    body := buffer[..];
    ghost var wanted := FrameControlBody(sequence, header, delayMs);
    assert body[0..4] == wanted[0..4] && body[4..12] == wanted[4..12] && body[20..22] == wanted[20..22]
      && body[22..24] == wanted[22..24];
    SameFields(body, wanted);
  }

  lemma {:induction false} SameFields(a: Bytes, b: Bytes)
    requires |a| == |b| == 26
    requires a[0..4] == b[0..4] && a[4..12] == b[4..12] && a[20..22] == b[20..22] && a[22..24] == b[22..24]
    requires forall i :: 12 <= i < 20 || 24 <= i < 26 ==> a[i] == b[i]
    ensures a == b
  {
    assert a == a[0..4] + a[4..12] + a[12..20] + a[20..22] + a[22..24] + a[24..26];
    assert b == b[0..4] + b[4..12] + b[12..20] + b[20..22] + b[22..24] + b[24..26];
    assert a[12..20] == b[12..20] && a[24..26] == b[24..26];
  }

  method WriteAt(buffer: array<Byte>, at: nat, bytes: Bytes)
    requires at + |bytes| <= buffer.Length
    modifies buffer
    ensures buffer[at..at + |bytes|] == bytes
    ensures forall i :: 0 <= i < buffer.Length && !(at <= i < at + |bytes|) ==> buffer[i] == old(buffer[i])
  {
    for k := 0 to |bytes|
      invariant buffer[at..at + k] == bytes[..k]
      invariant forall i :: 0 <= i < buffer.Length && !(at <= i < at + k) ==> buffer[i] == old(buffer[i])
    {
      buffer[at + k] := bytes[k];
    }
  }

  lemma {:induction false} KeepOneMore(frames: seq<Frame>, header: Bytes, n: nat)
    requires n < |frames| && KeepFrames(frames[..n], header).Ok?
    ensures var kept, parts := KeepFrames(frames[..n], header).value, PartsOf(frames[n].png);
      KeepFrames(frames[..n + 1], header)
        == if parts.Err? then Err(parts.error)
           else Ok(if parts.value.header == header then kept + [Kept(parts.value.data, frames[n].delayMs)] else kept)
  {
    assert frames[..n + 1][..n] == frames[..n];
  }

  /** The canvas is the first frame's; every later frame is read, and kept when it is of the same canvas. */
  method Keep(frames: seq<Frame>, first: PngParts) returns (r: Result<seq<Kept>, ApngError>, skipped: nat)
    requires frames != [] && PartsOf(frames[0].png) == Ok(first)
    ensures r == KeepFrames(frames, first.header)
    ensures r.Ok? ==> skipped + |r.value| == |frames|
  {
    var kept: seq<Kept> := [];
    skipped := 0;
    for n := 0 to |frames|
      invariant KeepFrames(frames[..n], first.header) == Ok(kept)
      invariant skipped + |kept| == n
    {
      KeepOneMore(frames, first.header, n);
      var read := ReadFrame(frames, first, n);
      if read.Err? {
        KeepErrorIsFinal(frames, first.header, n + 1);
        return Err(read.error), skipped;
      }
      var parts := read.value;
      if parts.header != first.header {
        skipped := skipped + 1;
      } else {
        kept := kept + [Kept(parts.data, frames[n].delayMs)];
      }
    }
    assert frames[..|frames|] == frames;
    r := Ok(kept);
  }

  /** The first frame's parts are at hand already; it is not read twice. */
  method ReadFrame(frames: seq<Frame>, first: PngParts, n: nat) returns (r: Result<PngParts, ApngError>)
    requires n < |frames| && PartsOf(frames[0].png) == Ok(first)
    ensures r == PartsOf(frames[n].png)
  {
    if n == 0 {
      r := Ok(first);
    } else {
      r := ReadParts(frames[n].png);
    }
  }

  lemma {:induction false} KeepErrorIsFinal(frames: seq<Frame>, header: Bytes, n: nat)
    requires n <= |frames| && KeepFrames(frames[..n], header).Err?
    ensures KeepFrames(frames, header) == KeepFrames(frames[..n], header)
    decreases |frames| - n
  {
    if n == |frames| {
      assert frames[..n] == frames;
    } else {
      assert frames[..n + 1][..n] == frames[..n];
      KeepErrorIsFinal(frames, header, n + 1);
    }
  }

  /** The canvas, the frames on it, and how many are not. */
  method Plan(frames: seq<Frame>) returns (r: Result<(Bytes, seq<Kept>), ApngError>, skipped: nat)
    ensures r == Planned(frames)
    ensures r.Ok? ==> |r.value.0| >= 13 && skipped + |r.value.1| == |frames|
  {
    skipped := 0;
    if |frames| == 0 {
      return Err(NoFrames), 0;
    }
    var first := ReadParts(frames[0].png);
    if first.Err? {
      return Err(first.error), 0;
    }
    var kept;
    kept, skipped := Keep(frames, first.value);
    if kept.Err? {
      return Err(kept.error), skipped;
    }
    r := Ok((first.value.header, kept.value));
  }

  /** Plans what is kept, writes it chunk by chunk, and counts what was written and what was skipped. */
  method AssembleApng(crc: Checksum, frames: seq<Frame>) returns (r: Result<Assembled, ApngError>)
    ensures r == Assemble(crc, frames)
  {
    hide Written;
    var plan, skipped := Plan(frames);
    if plan.Err? {
      return Err(plan.error);
    }
    var written := WriteAll(crc, plan.value.0, plan.value.1);
    if written.Err? {
      return Err(written.error);
    }
    return Ok(Assembled(written.value, |plan.value.1|, skipped));
  }

  lemma {:induction false} FitsOneMore(kept: seq<Kept>, n: nat)
    requires n < |kept| && FramesFit(kept, n)
    ensures FramesFit(kept, n + 1) <==> FrameFits(kept[n], n)
    ensures FramesFit(kept, |kept|) ==> FrameFits(kept[n], n)
  {
  }

  lemma {:induction false} BytesOneMore(crc: Checksum, header: Bytes, kept: seq<Kept>, n: nat)
    requires |header| >= 8 && n < |kept| && FramesFit(kept, n + 1)
    ensures Flatten(FrameBytesList(crc, header, kept, n + 1))
      == Flatten(FrameBytesList(crc, header, kept, n)) + FrameBytes(crc, header, kept[n], n)
  {
    var list := FrameBytesList(crc, header, kept, n);
    assert FrameBytesList(crc, header, kept, n + 1) == list + [FrameBytes(crc, header, kept[n], n)];
    FlattenOneMore(list, FrameBytes(crc, header, kept[n], n));
  }

  /** The frames, numbered in one sequence; a number too large for its bytes ends the assembly where it is written. */
  method WriteFrames(crc: Checksum, header: Bytes, kept: seq<Kept>) returns (r: Result<Bytes, ApngError>)
    requires |header| >= 8
    ensures r == if FramesFit(kept, |kept|) then Ok(Flatten(FrameBytesList(crc, header, kept, |kept|)))
      else Err(OutOfRange)
  {
    var body: Bytes := [];
    var sequence := 0;
    for index := 0 to |kept|
      invariant sequence == if index == 0 then 0 else 2 * index - 1
      invariant FramesFit(kept, index)
      invariant body == Flatten(FrameBytesList(crc, header, kept, index))
    {
      var written := WriteFrame(crc, header, kept[index], index, sequence);
      FitsOneMore(kept, index);
      if written.Err? {
        return written;
      }
      BytesOneMore(crc, header, kept, index);
      body := body + written.value;
      sequence := if index == 0 then 1 else sequence + 2;
    }
    r := Ok(body);
  }

  method WriteAll(crc: Checksum, header: Bytes, kept: seq<Kept>) returns (r: Result<Bytes, ApngError>)
    requires |header| >= 13
    ensures r == Written(crc, header, kept)
  {
    if |kept| >= TWO_32 || |header| >= TWO_32 {
      return Err(OutOfRange);
    }
    var body := WriteFrames(crc, header, kept);
    if body.Err? {
      return body;
    }
    var opening := Opening(header, |kept|);
    return Ok(SIGNATURE + (Pair(crc, opening[0], opening[1]) + (body.value + Chunk(crc, Part(IEND, [])))));
  }

  /** One frame's control and pixels, numbered from `sequence` on. */
  method WriteFrame(crc: Checksum, header: Bytes, frame: Kept, index: nat, sequence: nat)
    returns (r: Result<Bytes, ApngError>)
    requires |header| >= 8 && sequence == if index == 0 then 0 else 2 * index - 1
    ensures r == if FrameFits(frame, index) then Ok(FrameBytes(crc, header, frame, index)) else Err(OutOfRange)
  {
    if sequence >= TWO_32 {
      return Err(OutOfRange);
    }
    var control := FrameControl(sequence, header, frame.delayMs);
    if index == 0 {
      if |frame.data| >= TWO_32 {
        return Err(OutOfRange);
      }
      return Ok(Pair(crc, Part(FCTL, control), Part(IDAT, frame.data)));
    }
    if sequence + 1 >= TWO_32 || 4 + |frame.data| >= TWO_32 {
      return Err(OutOfRange);
    }
    return Ok(Pair(crc, Part(FCTL, control), Part(FDAT, U32(sequence + 1) + frame.data)));
  }

  // ------------------------------------------------------- the chunks of the bytes

  lemma {:induction false} RenderTwo(crc: Checksum, a: Part, b: Part)
    requires |a.body| < TWO_32 && |b.body| < TWO_32
    ensures Sized([a, b]) && Render(crc, [a, b]) == Pair(crc, a, b)
    ensures Sized([a]) && Render(crc, [a]) == Chunk(crc, a)
  {
    assert [a, b][1..] == [b] && [b][1..] == [] && [a][1..] == [];
    assert Render(crc, [b]) == Chunk(crc, b) + [];
  }

  lemma {:induction false} FrameIsSized(header: Bytes, frame: Kept, i: nat)
    requires |header| >= 8 && FrameFits(frame, i)
    ensures var parts := FrameParts(header, frame, i);
      |parts| == 2 && parts == [parts[0], parts[1]] && |parts[0].body| < TWO_32 && |parts[1].body| < TWO_32
  {
  }

  lemma {:induction false} FlattenIsRendered(crc: Checksum, list: seq<seq<Part>>, bytes: seq<Bytes>)
    requires |list| == |bytes| && forall i :: 0 <= i < |list| ==> Sized(list[i]) && Render(crc, list[i]) == bytes[i]
    ensures Sized(Flatten(list)) && Render(crc, Flatten(list)) == Flatten(bytes)
  {
    if list != [] {
      var n := |list| - 1;
      FlattenIsRendered(crc, list[..n], bytes[..n]);
      RenderAppend(crc, Flatten(list[..n]), list[n]);
    }
  }

  lemma {:induction false} FrameIsRendered(crc: Checksum, header: Bytes, frame: Kept, i: nat)
    requires |header| >= 8 && FrameFits(frame, i)
    ensures Sized(FrameParts(header, frame, i))
      && Render(crc, FrameParts(header, frame, i)) == FrameBytes(crc, header, frame, i)
  {
    FrameIsSized(header, frame, i);
    RenderTwo(crc, FrameParts(header, frame, i)[0], FrameParts(header, frame, i)[1]);
  }

  lemma {:induction false} FramesAreRendered(crc: Checksum, header: Bytes, kept: seq<Kept>)
    requires |header| >= 8 && FramesFit(kept, |kept|)
    ensures var list := FrameList(header, kept);
      Sized(Flatten(list)) && Render(crc, Flatten(list)) == Flatten(FrameBytesList(crc, header, kept, |kept|))
  {
    var list, bytes := FrameList(header, kept), FrameBytesList(crc, header, kept, |kept|);
    forall i | 0 <= i < |kept| ensures Sized(list[i]) && Render(crc, list[i]) == bytes[i] {
      assert FrameFits(kept[i], i);
      FrameIsRendered(crc, header, kept[i], i);
    }
    FlattenIsRendered(crc, list, bytes);
  }

  lemma {:induction false} RenderThree(crc: Checksum, a: seq<Part>, b: seq<Part>, c: seq<Part>)
    requires Sized(a) && Sized(b) && Sized(c)
    ensures Sized(a + b + c) && Render(crc, a + b + c) == Render(crc, a) + (Render(crc, b) + Render(crc, c))
  {
    RenderAppend(crc, b, c);
    RenderAppend(crc, a, b + c);
    Associates(a, b, c);
  }

  lemma {:induction false} EndsAreRendered(crc: Checksum, header: Bytes, n: nat)
    requires |header| < TWO_32 && n < TWO_32
    ensures var opening, closing := Opening(header, n), [Part(IEND, [])];
      && Sized(opening) && Render(crc, opening) == Pair(crc, opening[0], opening[1])
      && Sized(closing) && Render(crc, closing) == Chunk(crc, Part(IEND, []))
  {
    var opening := Opening(header, n);
    RenderTwo(crc, opening[0], opening[1]);
    RenderTwo(crc, Part(IEND, []), Part(IEND, []));
  }

  /** The bytes assembled are the signature and the animation's chunks, one after another. */
  lemma {:induction false} WrittenIsRendered(crc: Checksum, header: Bytes, kept: seq<Kept>)
    requires |header| >= 8 && Writable(header, kept)
    ensures Sized(ApngParts(header, kept))
      && Written(crc, header, kept) == Ok(SIGNATURE + Render(crc, ApngParts(header, kept)))
  {
    EndsAreRendered(crc, header, |kept|);
    FramesAreRendered(crc, header, kept);
    RenderThree(crc, Opening(header, |kept|), Flatten(FrameList(header, kept)), [Part(IEND, [])]);
  }

  // -------------------------------------------------------------------- splitting

  datatype Shown = Shown(delayMs: nat, data: Bytes)

  /** What has been read of an animation so far. */
  datatype Animation = Animation(header: Option<Bytes>, animated: bool, frames: seq<Shown>)

  /** A quotient rounded half up. */
  function RoundedQuotient(n: nat, d: nat): nat
    requires d > 0
  {
    (2 * n + d) / (2 * d)
  }

  function DelayOf(control: Bytes): nat
    requires |control| >= 24
  {
    var denominator := ReadU16(control, 22);
    RoundedQuotient(ReadU16(control, 20) * 1000, if denominator == 0 then 100 else denominator)
  }

  /** Pixels belong to the frame announced last; before any frame they belong to none. */
  function AddPixels(frames: seq<Shown>, data: Bytes): seq<Shown> {
    if frames == [] then [] else frames[|frames| - 1 := frames[|frames| - 1].(data := frames[|frames| - 1].data + data)]
  }

  function TakePart(a: Animation, part: Part): Result<Animation, ApngError> {
    if part.kind == IHDR then Ok(a.(header := Some(part.body)))
    else if part.kind == ACTL then Ok(a.(animated := true))
    else if part.kind == FCTL then
      if |part.body| < 24 then Err(OutOfRange) else Ok(a.(frames := a.frames + [Shown(DelayOf(part.body), [])]))
    else if part.kind == IDAT then Ok(a.(frames := AddPixels(a.frames, part.body)))
    else if part.kind == FDAT then Ok(a.(frames := AddPixels(a.frames, if |part.body| < 4 then [] else part.body[4..])))
    else Ok(a)
  }

  predicate SmallHeader(a: Animation) {
    a.header.Some? ==> |a.header.value| < TWO_32
  }

  function TakeFrom(png: Bytes, offset: nat, a: Animation): (r: Result<Animation, ApngError>)
    requires SmallHeader(a)
    ensures r.Ok? ==> SmallHeader(r.value)
    decreases if offset < |png| then |png| - offset else 0
  {
    match ChunkAt(png, offset)
    case End => Ok(a)
    case Cut(kind) => Err(Truncated(kind))
    case Next(part, next) =>
      var taken := TakePart(a, part);
      if taken.Err? || part.kind == IEND then taken else TakeFrom(png, next, taken.value)
  }

  /** The chunks of a still PNG: header, pixels, end. */
  function StillParts(header: Bytes, data: Bytes): seq<Part> {
    [Part(IHDR, header), Part(IDAT, data), Part(IEND, [])]
  }

  function Still(crc: Checksum, header: Bytes, shown: Shown): Frame
    requires |header| < TWO_32 && |shown.data| < TWO_32
  {
    Frame(SIGNATURE + Render(crc, StillParts(header, shown.data)), shown.delayMs as real)
  }

  predicate Small(frames: seq<Shown>) {
    forall i :: 0 <= i < |frames| ==> |frames[i].data| < TWO_32
  }

  function Stills(crc: Checksum, header: Bytes, frames: seq<Shown>): (stills: seq<Frame>)
    requires |header| < TWO_32 && Small(frames)
    ensures |stills| == |frames| && forall i :: 0 <= i < |frames| ==> stills[i] == Still(crc, header, frames[i])
  {
    if frames == [] then []
    else Stills(crc, header, frames[..|frames| - 1]) + [Still(crc, header, frames[|frames| - 1])]
  }

  function Split(crc: Checksum, apng: Bytes): Result<seq<Frame>, ApngError> {
    if !HasSignature(apng) then Err(NotPng)
    else
      match TakeFrom(apng, |SIGNATURE|, Animation(None, false, []))
      case Err(e) => Err(e)
      case Ok(a) =>
        if !a.animated || a.header.None? then Err(NotAnimated)
        else if !Small(a.frames) then Err(OutOfRange)
        else Ok(Stills(crc, a.header.value, a.frames))
  }

  method TakeAll(apng: Bytes) returns (r: Result<Animation, ApngError>)
    ensures r == TakeFrom(apng, |SIGNATURE|, Animation(None, false, []))
  {
    var a := Animation(None, false, []);
    var offset, more := |SIGNATURE|, true;
    ghost var whole := TakeFrom(apng, offset, a);
    while more
      invariant SmallHeader(a)
      invariant whole == if more then TakeFrom(apng, offset, a) else Ok(a)
      decreases more, if offset < |apng| then |apng| - offset else 0
    {
      match ChunkAt(apng, offset)
      case End => more := false;
      case Cut(kind) => return Err(Truncated(kind));
      case Next(part, next) =>
        var taken := TakePart(a, part);
        if taken.Err? {
          return Err(taken.error);
        }
        a, more, offset := taken.value, part.kind != IEND, next;
    }
    r := Ok(a);
  }

  method WriteStills(crc: Checksum, header: Bytes, shown: seq<Shown>) returns (r: Result<seq<Frame>, ApngError>)
    requires |header| < TWO_32
    ensures r == if Small(shown) then Ok(Stills(crc, header, shown)) else Err(OutOfRange)
  {
    var frames: seq<Frame> := [];
    for n := 0 to |shown|
      invariant Small(shown[..n])
      invariant frames == Stills(crc, header, shown[..n])
    {
      assert shown[..n + 1][..n] == shown[..n];
      if |shown[n].data| >= TWO_32 {
        return Err(OutOfRange);
      }
      assert Small(shown[..n + 1]);
      frames := frames + [Still(crc, header, shown[n])];
    }
    assert shown[..|shown|] == shown;
    r := Ok(frames);
  }

  /** Reads all chunks, then writes each announced frame as a still PNG with its delay in milliseconds. */
  method SplitApng(crc: Checksum, apng: Bytes) returns (r: Result<seq<Frame>, ApngError>)
    ensures r == Split(crc, apng)
  {
    if !HasSignature(apng) {
      return Err(NotPng);
    }
    var a := TakeAll(apng);
    if a.Err? {
      return Err(a.error);
    }
    if !a.value.animated || a.value.header.None? {
      return Err(NotAnimated);
    }
    r := WriteStills(crc, a.value.header.value, a.value.frames);
  }

  // --------------------------------------------------------------- the round trips

  function TakeParts(a: Animation, parts: seq<Part>): Result<Animation, ApngError> {
    if parts == [] then Ok(a)
    else
      var before := TakeParts(a, parts[..|parts| - 1]);
      if before.Err? then before else TakePart(before.value, parts[|parts| - 1])
  }

  lemma {:induction false} TakePartsAppend(a: Animation, b: seq<Part>, c: seq<Part>)
    ensures TakeParts(a, b + c) == if TakeParts(a, b).Err? then TakeParts(a, b) else TakeParts(TakeParts(a, b).value, c)
    decreases |c|
  {
    if c == [] {
      assert b + c == b;
    } else {
      assert (b + c)[..|b + c| - 1] == b + c[..|c| - 1];
      TakePartsAppend(a, b, c[..|c| - 1]);
    }
  }

  /** The splitter reads a file as the fold of its chunks. */
  lemma {:induction false} TakeFromParts(png: Bytes, offset: nat, parts: seq<Part>, a: Animation)
    requires SmallHeader(a) && ChunksFrom(png, offset) == Ok(parts)
    ensures TakeFrom(png, offset, a) == TakeParts(a, parts)
    decreases if offset < |png| then |png| - offset else 0
  {
    var step := ChunkAt(png, offset);
    if step.Next? {
      var rest := parts[1..];
      assert parts == [step.part] + rest;
      TakePartsAppend(a, [step.part], rest);
      TakeOne(a, step.part);
      if step.part.kind == IEND {
        assert rest == [];
      } else if TakePart(a, step.part).Ok? {
        TakeFromParts(png, step.offset, rest, TakePart(a, step.part).value);
      }
    }
  }

  lemma {:induction false} TakeOne(a: Animation, part: Part)
    ensures TakeParts(a, [part]) == TakePart(a, part)
  {
    assert [part][..0] == [];
  }

  function ShownOf(kept: seq<Kept>): (shown: seq<Shown>)
    ensures |shown| == |kept| && forall i :: 0 <= i < |kept| ==>
      shown[i] == Shown(ClampedDelay(kept[i].delayMs), kept[i].data)
  {
    seq(|kept|, i requires 0 <= i < |kept| => Shown(ClampedDelay(kept[i].delayMs), kept[i].data))
  }

  lemma {:induction false} ControlDelay(sequence: nat, header: Bytes, delayMs: real)
    requires sequence < TWO_32 && |header| >= 8
    ensures DelayOf(FrameControlBody(sequence, header, delayMs)) == ClampedDelay(delayMs)
  {
    var body, d := FrameControlBody(sequence, header, delayMs), ClampedDelay(delayMs);
    FrameControlFields(sequence, header, delayMs);
    assert body[20] == body[20..22][0] && body[21] == body[20..22][1];
    assert body[22] == body[22..24][0] && body[23] == body[22..24][1];
    assert ReadU16(body, 20) == d && ReadU16(body, 22) == 1000;
    assert (2 * (d * 1000) + 1000) / 2000 == d;
  }

  /** One frame's two chunks put one frame in: its delay and its pixels, whether they are the first's or numbered. */
  lemma {:induction false} TakeFrame(a: Animation, header: Bytes, frame: Kept, i: nat)
    requires |header| >= 8 && FrameFits(frame, i)
    ensures TakeParts(a, FrameParts(header, frame, i))
      == Ok(a.(frames := a.frames + [Shown(ClampedDelay(frame.delayMs), frame.data)]))
  {
    var parts := FrameParts(header, frame, i);
    var control := parts[0].body;
    ControlDelay(if i == 0 then 0 else 2 * i - 1, header, frame.delayMs);
    var announced := a.frames + [Shown(ClampedDelay(frame.delayMs), [])];
    assert parts == [parts[0]] + [parts[1]];
    TakePartsAppend(a, [parts[0]], [parts[1]]);
    TakeOne(a, parts[0]);
    TakeOne(a.(frames := announced), parts[1]);
    if i > 0 {
      assert (U32(2 * i) + frame.data)[4..] == frame.data;
    }
    assert [] + frame.data == frame.data;
    assert announced[|announced| - 1 := Shown(ClampedDelay(frame.delayMs), frame.data)]
        == a.frames + [Shown(ClampedDelay(frame.delayMs), frame.data)];
  }

  /** Chunks that put exactly one frame in, whatever was read before them. */
  ghost predicate PutsIn(parts: seq<Part>, shown: Shown) {
    forall a: Animation :: TakeParts(a, parts) == Ok(a.(frames := a.frames + [shown]))
  }

  lemma {:induction false} PutOneMore(a: Animation, before: seq<Part>, b: Animation, parts: seq<Part>, shown: Shown)
    requires TakeParts(a, before) == Ok(b) && PutsIn(parts, shown)
    ensures TakeParts(a, before + parts) == Ok(b.(frames := b.frames + [shown]))
  {
    TakePartsAppend(a, before, parts);
  }

  lemma {:induction false} TakeFlatten(a: Animation, list: seq<seq<Part>>, shown: seq<Shown>)
    requires |list| == |shown| && forall i :: 0 <= i < |list| ==> PutsIn(list[i], shown[i])
    ensures TakeParts(a, Flatten(list)) == Ok(a.(frames := a.frames + shown))
  {
    if list == [] {
      assert a.frames + shown == a.frames;
    } else {
      var n := |list| - 1;
      TakeFlatten(a, list[..n], shown[..n]);
      PutOneMore(a, Flatten(list[..n]), a.(frames := a.frames + shown[..n]), list[n], shown[n]);
      TakeOneMore(shown, n);
      assert shown[..n + 1] == shown;
      Associates(a.frames, shown[..n], [shown[n]]);
    }
  }

  lemma {:induction false} FramePutsIn(header: Bytes, frame: Kept, i: nat)
    requires |header| >= 8 && FrameFits(frame, i)
    ensures PutsIn(FrameParts(header, frame, i), Shown(ClampedDelay(frame.delayMs), frame.data))
  {
    hide TakeParts, FrameParts;
    var parts, shown := FrameParts(header, frame, i), Shown(ClampedDelay(frame.delayMs), frame.data);
    forall a: Animation ensures TakeParts(a, parts) == Ok(a.(frames := a.frames + [shown])) {
      TakeFrame(a, header, frame, i);
    }
  }

  lemma {:induction false} TakeAllFrames(a: Animation, header: Bytes, kept: seq<Kept>)
    requires |header| >= 8 && FramesFit(kept, |kept|) && a.frames == []
    ensures TakeParts(a, Flatten(FrameList(header, kept))) == Ok(a.(frames := ShownOf(kept)))
  {
    hide TakeParts, FrameParts, Flatten, PutsIn;
    var list, shown := FrameList(header, kept), ShownOf(kept);
    forall i | 0 <= i < |kept| ensures PutsIn(list[i], shown[i]) {
      assert FrameFits(kept[i], i);
      FramePutsIn(header, kept[i], i);
    }
    TakeFlatten(a, list, shown);
    assert [] + shown == shown;
  }

  ghost predicate NoEnd(parts: seq<Part>) {
    forall i :: 0 <= i < |parts| ==> parts[i].kind != IEND
  }

  lemma {:induction false} NoEndInFlatten(list: seq<seq<Part>>)
    requires forall i :: 0 <= i < |list| ==> NoEnd(list[i])
    ensures NoEnd(Flatten(list))
  {
    if list != [] {
      NoEndInFlatten(list[..|list| - 1]);
      assert NoEnd(list[|list| - 1]);
    }
  }

  lemma {:induction false} ApngIsClosed(header: Bytes, kept: seq<Kept>)
    requires |header| >= 8 && Writable(header, kept)
    ensures Closed(ApngParts(header, kept))
  {
    var list := FrameList(header, kept);
    forall i | 0 <= i < |kept| ensures NoEnd(list[i]) {
      assert FrameFits(kept[i], i);
    }
    NoEndInFlatten(list);
  }

  lemma {:induction false} RenderedFile(crc: Checksum, parts: seq<Part>)
    requires Sized(parts) && Closed(parts)
    ensures var png := SIGNATURE + Render(crc, parts);
      HasSignature(png) && ChunksFrom(png, |SIGNATURE|) == Ok(parts)
  {
    var png := SIGNATURE + Render(crc, parts);
    assert png[|SIGNATURE|..] == Render(crc, parts) + [];
    RenderedIsRead(crc, png, |SIGNATURE|, parts, []);
  }

  lemma {:induction false} SplitOfParts(crc: Checksum, apng: Bytes, parts: seq<Part>, header: Bytes, shown: seq<Shown>)
    requires HasSignature(apng) && ChunksFrom(apng, |SIGNATURE|) == Ok(parts)
    requires TakeParts(Animation(None, false, []), parts) == Ok(Animation(Some(header), true, shown))
    requires |header| < TWO_32 && Small(shown)
    ensures Split(crc, apng) == Ok(Stills(crc, header, shown))
  {
    TakeFromParts(apng, |SIGNATURE|, parts, Animation(None, false, []));
  }

  lemma {:induction false} WrittenIsRead(crc: Checksum, header: Bytes, kept: seq<Kept>)
    requires |header| >= 8 && Writable(header, kept)
    ensures var apng := Written(crc, header, kept).value;
      HasSignature(apng) && ChunksFrom(apng, |SIGNATURE|) == Ok(ApngParts(header, kept))
  {
    WrittenIsRendered(crc, header, kept);
    ApngIsClosed(header, kept);
    RenderedFile(crc, ApngParts(header, kept));
  }

  lemma {:induction false} ShownAreSmall(kept: seq<Kept>)
    requires FramesFit(kept, |kept|)
    ensures Small(ShownOf(kept))
  {
    assert forall i :: 0 <= i < |kept| ==> FrameFits(kept[i], i);
  }

  lemma {:induction false} SplitWritten(crc: Checksum, header: Bytes, kept: seq<Kept>)
    requires |header| >= 8 && Writable(header, kept)
    ensures Small(ShownOf(kept))
    ensures Split(crc, Written(crc, header, kept).value) == Ok(Stills(crc, header, ShownOf(kept)))
  {
    WrittenIsRead(crc, header, kept);
    TakeApng(header, kept);
    ShownAreSmall(kept);
    SplitOfParts(crc, Written(crc, header, kept).value, ApngParts(header, kept), header, ShownOf(kept));
  }

  lemma {:induction false} TakeApng(header: Bytes, kept: seq<Kept>)
    requires |header| >= 8 && Writable(header, kept)
    ensures TakeParts(Animation(None, false, []), ApngParts(header, kept))
      == Ok(Animation(Some(header), true, ShownOf(kept)))
  {
    var start, begun := Animation(None, false, []), Animation(Some(header), true, []);
    var opening, frames, closing := Opening(header, |kept|), Flatten(FrameList(header, kept)), [Part(IEND, [])];
    assert opening == [opening[0]] + [opening[1]];
    TakePartsAppend(start, [opening[0]], [opening[1]]);
    TakeOne(start, opening[0]);
    TakeOne(start.(header := Some(header)), opening[1]);
    TakePartsAppend(start, opening, frames);
    TakeAllFrames(begun, header, kept);
    TakePartsAppend(start, opening + frames, closing);
    TakeOne(begun.(frames := ShownOf(kept)), closing[0]);
  }

  /**
   Splitting undoes assembling: every frame on the canvas comes back, in order, as
   a PNG of the shared header and its own pixels, shown for its rounded delay held
   to sixteen bits; and the frames kept and skipped are all there were.
   */
  lemma {:induction false} SplitUndoesAssemble(crc: Checksum, frames: seq<Frame>)
    requires Assemble(crc, frames).Ok?
    ensures var a := Assemble(crc, frames).value; var header, kept := Planned(frames).value.0, Planned(frames).value.1;
      && |header| < TWO_32 && Small(ShownOf(kept))
      && Split(crc, a.apng) == Ok(Stills(crc, header, ShownOf(kept)))
      && a.frames == |kept| && a.frames + a.skipped == |frames|
  {
    SplitWritten(crc, Planned(frames).value.0, Planned(frames).value.1);
  }

  lemma {:induction false} StillParts3(header: Bytes, data: Bytes)
    requires |header| < TWO_32 && |data| < TWO_32
    ensures var parts := StillParts(header, data);
      Sized(parts) && Closed(parts) && HeaderOf(parts) == Some(header) && PixelsOf(parts) == [data]
  {
    var one, two := [Part(IHDR, header)], [Part(IHDR, header), Part(IDAT, data)];
    assert StillParts(header, data)[..2] == two && two[..1] == one && one[..0] == [];
    assert HeaderOf(one) == Some(header) && HeaderOf(two) == Some(header);
    assert PixelsOf(one) == [] && [] + [data] == [data];
    assert PixelsOf(two) == PixelsOf(two[..1]) + [data];
  }

  lemma {:induction false} PartsOfParts(png: Bytes, parts: seq<Part>, header: Bytes, data: Bytes)
    requires HasSignature(png) && ChunksFrom(png, |SIGNATURE|) == Ok(parts)
    requires HeaderOf(parts) == Some(header) && |header| >= 13 && PixelsOf(parts) == [data]
    ensures PartsOf(png) == Ok(PngParts(header, data))
  {
    assert [data][..0] == [] && [] + data == data;
    assert Flatten([data]) == Flatten([data][..0]) + data;
  }

  lemma {:induction false} StillIsRead(crc: Checksum, header: Bytes, shown: Shown)
    requires 13 <= |header| < TWO_32 && |shown.data| < TWO_32
    ensures PartsOf(Still(crc, header, shown).png) == Ok(PngParts(header, shown.data))
  {
    StillParts3(header, shown.data);
    RenderedFile(crc, StillParts(header, shown.data));
    PartsOfParts(Still(crc, header, shown).png, StillParts(header, shown.data), header, shown.data);
  }

  lemma {:induction false} StillsAreKept(crc: Checksum, header: Bytes, shown: seq<Shown>)
    requires 13 <= |header| < TWO_32 && Small(shown)
    ensures KeepFrames(Stills(crc, header, shown), header) == Ok(KeptAgain(shown))
  {
    if shown != [] {
      var n := |shown| - 1;
      StillsAreKept(crc, header, shown[..n]);
      StillIsRead(crc, header, shown[n]);
    }
  }

  function KeptAgain(shown: seq<Shown>): (kept: seq<Kept>)
    ensures |kept| == |shown| && forall i :: 0 <= i < |shown| ==>
      kept[i] == Kept(shown[i].data, shown[i].delayMs as real)
  {
    if shown == [] then []
    else KeptAgain(shown[..|shown| - 1]) + [Kept(shown[|shown| - 1].data, shown[|shown| - 1].delayMs as real)]
  }

  /** Two frames the file cannot tell apart. */
  predicate Alike(a: Kept, b: Kept) {
    a.data == b.data && ClampedDelay(a.delayMs) == ClampedDelay(b.delayMs)
  }

  lemma {:induction false} SameFrameBytes(crc: Checksum, header: Bytes, a: Kept, b: Kept, i: nat)
    requires |header| >= 8 && FrameFits(a, i) && Alike(a, b)
    ensures FrameFits(b, i) && FrameBytes(crc, header, b, i) == FrameBytes(crc, header, a, i)
  {
    assert FrameParts(header, b, i) == FrameParts(header, a, i);
  }

  lemma {:induction false} SameBytes(crc: Checksum, header: Bytes, kept: seq<Kept>, kept': seq<Kept>)
    requires |header| >= 8 && |kept| == |kept'| && FramesFit(kept, |kept|)
    requires forall i :: 0 <= i < |kept| ==> Alike(kept[i], kept'[i])
    ensures FramesFit(kept', |kept|)
      && FrameBytesList(crc, header, kept', |kept|) == FrameBytesList(crc, header, kept, |kept|)
  {
    forall i | 0 <= i < |kept|
      ensures FrameFits(kept'[i], i) && FrameBytes(crc, header, kept'[i], i) == FrameBytes(crc, header, kept[i], i)
    {
      assert FrameFits(kept[i], i) && Alike(kept[i], kept'[i]);
      SameFrameBytes(crc, header, kept[i], kept'[i], i);
    }
  }

  lemma {:induction false} SameWritten(crc: Checksum, header: Bytes, kept: seq<Kept>, kept': seq<Kept>)
    requires |header| >= 8 && Writable(header, kept) && |kept| == |kept'|
    requires forall i :: 0 <= i < |kept| ==> Alike(kept[i], kept'[i])
    ensures Written(crc, header, kept') == Written(crc, header, kept)
  {
    SameBytes(crc, header, kept, kept');
  }

  lemma {:induction false} FirstFrameIsKept(frames: seq<Frame>, n: nat)
    requires 0 < n <= |frames| && PartsOf(frames[0].png).Ok?
      && KeepFrames(frames[..n], PartsOf(frames[0].png).value.header).Ok?
    ensures |KeepFrames(frames[..n], PartsOf(frames[0].png).value.header).value| > 0
  {
    assert frames[..n][..n - 1] == frames[..n - 1];
    if n > 1 {
      FirstFrameIsKept(frames, n - 1);
    }
  }

  lemma {:induction false} KeptAgainAlike(kept: seq<Kept>)
    ensures |KeptAgain(ShownOf(kept))| == |kept|
    ensures forall i :: 0 <= i < |kept| ==> Alike(kept[i], KeptAgain(ShownOf(kept))[i])
  {
    forall i | 0 <= i < |kept| ensures Alike(kept[i], KeptAgain(ShownOf(kept))[i]) {
      assert KeptAgain(ShownOf(kept))[i] == Kept(kept[i].data, ClampedDelay(kept[i].delayMs) as real);
    }
  }

  /** The frames split out of a recording are planned onto the same canvas, all of them. */
  lemma {:induction false} StillsArePlanned(crc: Checksum, header: Bytes, shown: seq<Shown>)
    requires 13 <= |header| < TWO_32 && Small(shown) && shown != []
    ensures Planned(Stills(crc, header, shown)) == Ok((header, KeptAgain(shown)))
  {
    StillsAreKept(crc, header, shown);
    StillIsRead(crc, header, shown[0]);
  }

  lemma {:induction false} PlannedIsUsable(frames: seq<Frame>)
    requires Planned(frames).Ok?
    ensures 13 <= |Planned(frames).value.0| && |Planned(frames).value.1| > 0
  {
    assert frames[..|frames|] == frames;
    FirstFrameIsKept(frames, |frames|);
  }

  /** Assembling the frames a recording was split into gives the same bytes again, and skips none. */
  lemma {:induction false} AssembleUndoesSplit(crc: Checksum, frames: seq<Frame>)
    requires Assemble(crc, frames).Ok?
    ensures var a := Assemble(crc, frames).value;
      Split(crc, a.apng).Ok? && Assemble(crc, Split(crc, a.apng).value) == Ok(Assembled(a.apng, a.frames, 0))
  {
    var header, kept := Planned(frames).value.0, Planned(frames).value.1;
    PlannedIsUsable(frames);
    SplitUndoesAssemble(crc, frames);
    StillsArePlanned(crc, header, ShownOf(kept));
    KeptAgainAlike(kept);
    SameWritten(crc, header, kept, KeptAgain(ShownOf(kept)));
  }

  // ------------------------------------------------------------ the sequence numbers

  /** The numbers the frames' chunks carry, control and pixels alike, in file order. */
  function SequenceNumbers(parts: seq<Part>): seq<nat> {
    if parts == [] then []
    else
      var before, last := SequenceNumbers(parts[..|parts| - 1]), parts[|parts| - 1];
      if (last.kind == FCTL || last.kind == FDAT) && |last.body| >= 4 then before + [ReadU32(last.body, 0)] else before
  }

  function UpTo(n: nat): (s: seq<nat>)
    ensures |s| == n && forall i :: 0 <= i < n ==> s[i] == i
  {
    if n == 0 then [] else UpTo(n - 1) + [n - 1]
  }

  lemma {:induction false} SequenceAppend(a: seq<Part>, b: seq<Part>)
    ensures SequenceNumbers(a + b) == SequenceNumbers(a) + SequenceNumbers(b)
    decreases |b|
  {
    if b == [] {
      assert a + b == a;
    } else {
      assert (a + b)[..|a + b| - 1] == a + b[..|b| - 1];
      SequenceAppend(a, b[..|b| - 1]);
    }
  }

  lemma {:induction false} NumberRead(n: nat, rest: Bytes)
    requires n < TWO_32
    ensures |U32(n) + rest| >= 4 && ReadU32(U32(n) + rest, 0) == n
  {
    var b := U32(n) + rest;
    assert b[0] == U32(n)[0] && b[1] == U32(n)[1] && b[2] == U32(n)[2] && b[3] == U32(n)[3];
  }

  lemma {:induction false} FrameNumbers(header: Bytes, frame: Kept, i: nat)
    requires |header| >= 8 && FrameFits(frame, i)
    ensures SequenceNumbers(FrameParts(header, frame, i)) == if i == 0 then [0] else [2 * i - 1, 2 * i]
  {
    var parts, sequence := FrameParts(header, frame, i), if i == 0 then 0 else 2 * i - 1;
    var body := FrameControlBody(sequence, header, frame.delayMs);
    FrameControlFields(sequence, header, frame.delayMs);
    assert body == U32(sequence) + body[4..];
    NumberRead(sequence, body[4..]);
    NumberRead(2 * i, frame.data);
    assert parts[..1] == [parts[0]] && parts[..1][..0] == [];
    assert SequenceNumbers(parts[..1]) == [sequence];
  }

  lemma {:induction false} NumbersFlatten(list: seq<seq<Part>>, numbers: seq<seq<nat>>)
    requires |list| == |numbers| && forall i :: 0 <= i < |list| ==> SequenceNumbers(list[i]) == numbers[i]
    ensures SequenceNumbers(Flatten(list)) == Flatten(numbers)
  {
    if list != [] {
      var n := |list| - 1;
      NumbersFlatten(list[..n], numbers[..n]);
      SequenceAppend(Flatten(list[..n]), list[n]);
    }
  }

  function NumbersOf(i: nat): seq<nat> {
    if i == 0 then [0] else [2 * i - 1, 2 * i]
  }

  lemma {:induction false} PairsRunOn(n: nat)
    ensures Flatten(seq(n, i requires 0 <= i => NumbersOf(i))) == UpTo(if n == 0 then 0 else 2 * n - 1)
  {
    if n > 0 {
      PairsRunOn(n - 1);
      var before := seq(n - 1, i requires 0 <= i => NumbersOf(i));
      assert seq(n, i requires 0 <= i => NumbersOf(i)) == before + [NumbersOf(n - 1)];
      FlattenOneMore(before, NumbersOf(n - 1));
      if n > 1 {
        assert UpTo(2 * n - 1) == UpTo(2 * n - 3) + [2 * n - 3, 2 * n - 2];
      } else {
        assert UpTo(1) == [] + [0];
      }
    }
  }

  lemma {:induction false} NumbersRunOn(list: seq<seq<Part>>)
    requires forall i :: 0 <= i < |list| ==> SequenceNumbers(list[i]) == NumbersOf(i)
    ensures SequenceNumbers(Flatten(list)) == UpTo(if list == [] then 0 else 2 * |list| - 1)
  {
    hide SequenceNumbers, UpTo, Flatten, NumbersOf;
    NumbersFlatten(list, seq(|list|, i requires 0 <= i => NumbersOf(i)));
    PairsRunOn(|list|);
  }

  /** The numbers run from 0 to 2n - 2 without a gap and without a repeat, n being the frames kept. */
  lemma {:induction false} SequenceHasNoGap(header: Bytes, kept: seq<Kept>)
    requires |header| >= 8 && kept != [] && FramesFit(kept, |kept|)
    ensures SequenceNumbers(Flatten(FrameList(header, kept))) == UpTo(2 * |kept| - 1)
  {
    hide FrameParts, SequenceNumbers, UpTo, Flatten;
    var list := FrameList(header, kept);
    forall i | 0 <= i < |list| ensures SequenceNumbers(list[i]) == NumbersOf(i) {
      assert FrameFits(kept[i], i);
      FrameNumbers(header, kept[i], i);
    }
    NumbersRunOn(list);
  }
}
