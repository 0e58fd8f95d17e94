/**
 What the assembler and the splitter do, in terms of the frames, the chunks and the
 numbers alone: what is taken from a PNG, which frames are kept, how long they are
 shown, and which pixels belong to which frame.
 */
module ApngMeaning {
  import opened Prelude
  import opened Apng

  // ----------------------------------------------------- what is taken from a PNG

  predicate LastHeaderAt(parts: seq<Part>, header: Bytes, i: int) {
    0 <= i < |parts| && parts[i] == Part(IHDR, header) && forall j :: i < j < |parts| ==> parts[j].kind != IHDR
  }

  ghost predicate LastHeader(parts: seq<Part>, header: Bytes) {
    exists i :: LastHeaderAt(parts, header, i)
  }

  predicate Has(parts: seq<Part>, kind: Quad) {
    exists i :: 0 <= i < |parts| && parts[i].kind == kind
  }

  function Pixels(part: Part): Bytes {
    if part.kind == IDAT then part.body else []
  }

  /** The pixels of some chunks, joined in their order. */
  function Joined(parts: seq<Part>): Bytes {
    if parts == [] then [] else Pixels(parts[0]) + Joined(parts[1..])
  }

  lemma {:induction false} HeaderIsTheLast(parts: seq<Part>)
    ensures HeaderOf(parts).Some? <==> Has(parts, IHDR)
    ensures HeaderOf(parts).Some? ==> LastHeader(parts, HeaderOf(parts).value)
  {
    if parts != [] {
      var n := |parts| - 1;
      HeaderIsTheLast(parts[..n]);
      assert forall i :: 0 <= i < n ==> parts[..n][i] == parts[i];
      if parts[n].kind == IHDR {
        assert LastHeaderAt(parts, parts[n].body, n);
      } else if HeaderOf(parts[..n]).Some? {
        var header := HeaderOf(parts[..n]).value;
        var i :| LastHeaderAt(parts[..n], header, i);
        assert LastHeaderAt(parts, header, i);
      }
    }
  }

  lemma {:induction false} OneHeader(parts: seq<Part>, header: Bytes, other: Bytes)
    requires LastHeader(parts, header) && LastHeader(parts, other)
    ensures header == other
  {
  }

  lemma {:induction false} JoinedOneMore(parts: seq<Part>, last: Part)
    ensures Joined(parts + [last]) == Joined(parts) + Pixels(last)
  {
    var all := parts + [last];
    if parts == [] {
      assert all == [last] && [last][1..] == [];
    } else {
      assert all[0] == parts[0] && all[1..] == parts[1..] + [last];
      JoinedOneMore(parts[1..], last);
      Associates(Pixels(parts[0]), Joined(parts[1..]), Pixels(last));
      hide Pixels;
    }
  }

  lemma {:induction false} PixelsAreJoined(parts: seq<Part>)
    ensures Flatten(PixelsOf(parts)) == Joined(parts)
    ensures PixelsOf(parts) == [] <==> !Has(parts, IDAT)
  {
    if parts != [] {
      var n := |parts| - 1;
      PixelsAreJoined(parts[..n]);
      assert forall i :: 0 <= i < n ==> parts[..n][i] == parts[i];
      assert parts == parts[..n] + [parts[n]];
      JoinedOneMore(parts[..n], parts[n]);
      if parts[n].kind == IDAT {
        FlattenOneMore(PixelsOf(parts[..n]), parts[n].body);
      }
    }
  }

  /**
   What an animation takes from a file of chunks that end at their end chunk, whatever
   follows: the last header and all the pixels in their order, or an error exactly when
   there is no header of thirteen bytes or there are no pixels.
   */
  lemma {:induction false} PngIsRead(crc: Checksum, parts: seq<Part>, after: Bytes)
    requires Sized(parts) && Closed(parts)
    ensures var read := PartsOf(SIGNATURE + Render(crc, parts) + after);
      if Has(parts, IDAT) && exists header :: LastHeader(parts, header) && |header| >= 13
      then read.Ok? && LastHeader(parts, read.value.header) && read.value.data == Joined(parts)
      else read == Err(NoHeaderOrPixels)
  {
    var png := SIGNATURE + Render(crc, parts) + after;
    assert png[..|SIGNATURE|] == SIGNATURE && png[|SIGNATURE|..] == Render(crc, parts) + after;
    RenderedIsRead(crc, png, |SIGNATURE|, parts, after);
    HeaderIsTheLast(parts);
    PixelsAreJoined(parts);
    hide HeaderOf, PixelsOf, Joined, Render, Flatten;
    if header: Bytes :| LastHeader(parts, header) {
      assert HeaderOf(parts).Some?;
      OneHeader(parts, header, HeaderOf(parts).value);
    }
    forall header | LastHeader(parts, header) ensures HeaderOf(parts) == Some(header) {
      OneHeader(parts, header, HeaderOf(parts).value);
    }
  }

  // ------------------------------------------------------------- which frames are kept

  /** The frames whose header is the first one's. */
  ghost function OnCanvas(frames: seq<Frame>, header: Bytes): set<nat> {
    set n: nat | n < |frames| && PartsOf(frames[n].png).Ok? && PartsOf(frames[n].png).value.header == header
  }

  ghost predicate KeptAt(frames: seq<Frame>, header: Bytes, kept: seq<Kept>, places: seq<nat>) {
    && InOrder(places, OnCanvas(frames, header)) && |kept| == |places|
    && forall k :: 0 <= k < |places| ==> places[k] < |frames| && IsKept(frames[places[k]], kept[k])
  }

  /** A frame is kept with its own pixels, for its own delay. */
  predicate IsKept(frame: Frame, kept: Kept) {
    PartsOf(frame.png).Ok? && kept == Kept(PartsOf(frame.png).value.data, frame.delayMs)
  }

  ghost predicate AllRead(frames: seq<Frame>) {
    forall n :: 0 <= n < |frames| ==> PartsOf(frames[n].png).Ok?
  }

  /** Frame `n` is the first that cannot be read, for this reason. */
  predicate FirstUnread(frames: seq<Frame>, n: int, error: ApngError) {
    && 0 <= n < |frames| && PartsOf(frames[n].png) == Err(error)
    && forall m :: 0 <= m < n ==> PartsOf(frames[m].png).Ok?
  }

  lemma {:induction false} OneFrameMore(frames: seq<Frame>, header: Bytes, kept: seq<Kept>, places: seq<nat>)
    requires frames != [] && KeptAt(frames[..|frames| - 1], header, kept, places)
    requires PartsOf(frames[|frames| - 1].png).Ok?
    ensures var n := |frames| - 1; var parts := PartsOf(frames[n].png).value;
      if parts.header == header then KeptAt(frames, header, kept + [Kept(parts.data, frames[n].delayMs)], places + [n])
      else KeptAt(frames, header, kept, places)
  {
    hide PartsOf;
    var n := |frames| - 1;
    assert forall m :: 0 <= m < n ==> frames[..n][m] == frames[m];
    assert OnCanvas(frames, header) == OnCanvas(frames[..n], header)
      + if PartsOf(frames[n].png).value.header == header then {n} else {};
    assert forall k :: 0 <= k < |places| ==> places[k] in places;
    if PartsOf(frames[n].png).value.header == header {
      OnePlaceMore(places, OnCanvas(frames[..n], header), n);
    }
  }

  lemma {:induction false} FirstUnreadStays(frames: seq<Frame>, n: int, error: ApngError)
    requires frames != [] && FirstUnread(frames[..|frames| - 1], n, error)
    ensures FirstUnread(frames, n, error)
  {
    hide PartsOf;
    assert forall m :: 0 <= m < |frames| - 1 ==> frames[..|frames| - 1][m] == frames[m];
  }

  lemma {:induction false} AllReadOneMore(frames: seq<Frame>)
    requires frames != [] && AllRead(frames[..|frames| - 1])
    ensures AllRead(frames) || FirstUnread(frames, |frames| - 1, PartsOf(frames[|frames| - 1].png).error)
    ensures PartsOf(frames[|frames| - 1].png).Ok? <==> AllRead(frames)
  {
    hide PartsOf;
    assert forall m :: 0 <= m < |frames| - 1 ==> frames[..|frames| - 1][m] == frames[m];
  }

  lemma {:induction false} KeepUnfolds(frames: seq<Frame>, header: Bytes)
    requires frames != []
    ensures var n := |frames| - 1; var before, read := KeepFrames(frames[..n], header), PartsOf(frames[n].png);
      KeepFrames(frames, header) == if before.Err? then before else if read.Err? then Err(read.error)
        else if read.value.header == header then Ok(before.value + [Kept(read.value.data, frames[n].delayMs)])
          else before
  {
    hide PartsOf;
  }

  lemma {:induction false} KeepFramesKeeps(frames: seq<Frame>, header: Bytes)
    ensures KeepFrames(frames, header).Ok? ==>
      AllRead(frames) && exists places :: KeptAt(frames, header, KeepFrames(frames, header).value, places)
    ensures KeepFrames(frames, header).Err? ==> exists n :: FirstUnread(frames, n, KeepFrames(frames, header).error)
  {
    if frames == [] {
      assert KeptAt(frames, header, [], []);
    } else {
      var n := |frames| - 1;
      KeepUnfolds(frames, header);
      hide PartsOf, KeptAt, KeepFrames, AllRead, FirstUnread;
      KeepFramesKeeps(frames[..n], header);
      var before := KeepFrames(frames[..n], header);
      if before.Err? {
        var m :| FirstUnread(frames[..n], m, before.error);
        FirstUnreadStays(frames, m, before.error);
      } else {
        AllReadOneMore(frames);
        if PartsOf(frames[n].png).Ok? {
          var places :| KeptAt(frames[..n], header, before.value, places);
          OneFrameMore(frames, header, before.value, places);
        }
      }
    }
  }

  /**
   Of frames that can all be read, an assembly keeps exactly those with the first one's
   header, in their order, each with its own pixels and delay, and counts the others as
   skipped; and otherwise it throws what reading the first unreadable one throws.
   */
  lemma {:induction false} KeptAreOnTheCanvas(crc: Checksum, frames: seq<Frame>)
    requires frames != []
    ensures Planned(frames).Err? ==> exists n :: FirstUnread(frames, n, Planned(frames).error)
    ensures Planned(frames).Ok? ==> var header, kept := Planned(frames).value.0, Planned(frames).value.1;
      && AllRead(frames) && PartsOf(frames[0].png).Ok? && header == PartsOf(frames[0].png).value.header
      && (exists places :: KeptAt(frames, header, kept, places))
      && (var a := Assemble(crc, frames); a.Ok? ==> a.value.frames == |kept| && a.value.skipped == |frames| - |kept|)
  {
    if PartsOf(frames[0].png).Ok? {
      KeepFramesKeeps(frames, PartsOf(frames[0].png).value.header);
      hide PartsOf, KeptAt, KeepFrames, Written;
    } else {
      assert FirstUnread(frames, 0, PartsOf(frames[0].png).error);
    }
  }

  // ------------------------------------------------------------------ what is written

  /**
   A chunk is its body's length, its kind, its body, and the checksum of both (section
   5.3 of the PNG specification).
   */
  lemma {:induction false} ChunkLayout(crc: Checksum, part: Part)
    requires |part.body| < TWO_32
    ensures var chunk, n := Chunk(crc, part), |part.body|;
      && |chunk| == n + 12 && ReadU32(chunk, 0) == n && chunk[4..8] == part.kind && chunk[8..8 + n] == part.body
      && chunk[8 + n..] == crc(part.kind + part.body)
  {
    assert Chunk(crc, part)[..4] == U32(|part.body|);
    var chunk, length := Chunk(crc, part), U32(|part.body|);
    assert chunk[0] == length[0] && chunk[1] == length[1] && chunk[2] == length[2] && chunk[3] == length[3];
  }

  /** The animation chunk, after the header, says how many frames there are and that they are played once. */
  lemma {:induction false} AnimationSaysHowMany(header: Bytes, kept: seq<Kept>)
    requires |header| >= 8 && Writable(header, kept)
    ensures var parts := ApngParts(header, kept);
      && |parts| >= 3 && parts[0] == Part(IHDR, header) && parts[1].kind == ACTL && |parts[1].body| == 8
      && ReadU32(parts[1].body, 0) == |kept| && ReadU32(parts[1].body, 4) == 1
      && parts[|parts| - 1] == Part(IEND, [])
  {
    var body, frames, plays := U32(|kept|) + U32(1), U32(|kept|), U32(1);
    assert body[0] == frames[0] && body[1] == frames[1] && body[2] == frames[2] && body[3] == frames[3];
    assert body[4] == plays[0] && body[5] == plays[1] && body[6] == plays[2] && body[7] == plays[3];
  }

  /** A delay is held to 0..65535 and otherwise rounded to the nearest whole number, a half upwards. */
  lemma {:induction false} DelayIsHeld(delayMs: real)
    ensures var d := ClampedDelay(delayMs);
      && (delayMs < 0.5 ==> d == 0)
      && (delayMs >= 65534.5 ==> d == 65535)
      && (0.5 <= delayMs < 65534.5 ==> d as real - 0.5 <= delayMs < d as real + 0.5)
  {
  }

  // ---------------------------------------------------------------- what is taken apart

  /**
   A frame control's delay in milliseconds to the nearest, a half upwards; a denominator
   of zero counts hundredths.
   */
  lemma {:induction false} DelayIsRead(control: Bytes)
    requires |control| >= 24
    ensures var n, d, read := ReadU16(control, 20), ReadU16(control, 22), DelayOf(control);
      var parts := if d == 0 then 100 else d;
      2 * parts * read <= 2 * 1000 * n + parts < 2 * parts * (read + 1)
  {
    var n, d := ReadU16(control, 20), ReadU16(control, 22);
    var parts := if d == 0 then 100 else d;
    Quotient(2 * (n * 1000) + parts, 2 * parts);
  }

  lemma {:induction false} Quotient(n: nat, d: nat)
    requires d > 0
    ensures d * (n / d) <= n < d * (n / d + 1)
  {
  }

  /** A frame's control chunk and the chunks up to the next one's. */
  datatype Announced = Announced(control: Part, rest: seq<Part>)

  ghost predicate IsAnnounced(x: Announced) {
    && x.control.kind == FCTL && |x.control.body| >= 24
    && !Has(x.rest, FCTL)
  }

  ghost predicate AreAnnounced(list: seq<Announced>) {
    forall i :: 0 <= i < |list| ==> IsAnnounced(list[i])
  }

  /** The pixels of a chunk, less the number that a numbered one opens with. */
  function PixelBody(part: Part): Bytes {
    if part.kind == IDAT then part.body
    else if part.kind == FDAT && |part.body| >= 4 then part.body[4..]
    else []
  }

  function PixelBodies(parts: seq<Part>): Bytes {
    if parts == [] then [] else PixelBodies(parts[..|parts| - 1]) + PixelBody(parts[|parts| - 1])
  }

  /** What a viewer is shown for a frame: its control's delay, and the pixels that follow it. */
  function ShownFor(x: Announced): Shown
    requires |x.control.body| >= 24
  {
    Shown(DelayOf(x.control.body), PixelBodies(x.rest))
  }

  function AllShown(list: seq<Announced>): (shown: seq<Shown>)
    requires forall i :: 0 <= i < |list| ==> |list[i].control.body| >= 24
    ensures |shown| == |list| && forall i :: 0 <= i < |list| ==> shown[i] == ShownFor(list[i])
  {
    seq(|list|, i requires 0 <= i < |list| => ShownFor(list[i]))
  }

  /** The chunks of a file: some before the first frame, and each frame's. */
  function Laid(before: seq<Part>, list: seq<Announced>): seq<Part> {
    if list == [] then before
    else Laid(before, list[..|list| - 1]) + ([list[|list| - 1].control] + list[|list| - 1].rest)
  }

  /** What chunks that announce no frame add: their pixels to the frame announced last, where there is one. */
  lemma {:induction false} RestIsTaken(a: Animation, parts: seq<Part>)
    requires !Has(parts, FCTL)
    ensures TakeParts(a, parts).Ok?
    ensures var b := TakeParts(a, parts).value;
      && b.frames == AddPixels(a.frames, PixelBodies(parts))
      && (b.animated <==> a.animated || Has(parts, ACTL))
      && (if Has(parts, IHDR) then b.header.Some? && LastHeader(parts, b.header.value) else b.header == a.header)
  {
    if parts == [] {
      assert a.frames != [] ==> a.frames[|a.frames| - 1].data + [] == a.frames[|a.frames| - 1].data;
    } else {
      var n := |parts| - 1;
      assert forall i :: 0 <= i < n ==> parts[..n][i] == parts[i];
      RestIsTaken(a, parts[..n]);
      OnePartMore(a, parts);
    }
  }

  lemma {:induction false} OnePartMore(a: Animation, parts: seq<Part>)
    requires parts != [] && parts[|parts| - 1].kind != FCTL
    requires var n := |parts| - 1; var before := TakeParts(a, parts[..n]);
      && before.Ok? && before.value.frames == AddPixels(a.frames, PixelBodies(parts[..n]))
      && (before.value.animated <==> a.animated || Has(parts[..n], ACTL))
      && (if Has(parts[..n], IHDR) then before.value.header.Some? && LastHeader(parts[..n], before.value.header.value)
          else before.value.header == a.header)
    ensures TakeParts(a, parts).Ok?
    ensures var b := TakeParts(a, parts).value;
      && b.frames == AddPixels(a.frames, PixelBodies(parts))
      && (b.animated <==> a.animated || Has(parts, ACTL))
      && (if Has(parts, IHDR) then b.header.Some? && LastHeader(parts, b.header.value) else b.header == a.header)
  {
    var n := |parts| - 1;
    var last, before := parts[n], TakeParts(a, parts[..n]).value;
    HasOneMore(parts, ACTL);
    HasOneMore(parts, IHDR);
    LastHeaderOneMore(parts);
    OnePartTaken(before, last);
    AddPixelsTwice(a.frames, PixelBodies(parts[..n]), PixelBody(last));
    hide Has, LastHeader, AddPixels, PixelBody, TakePart;
  }

  lemma {:induction false} OnePartTaken(a: Animation, last: Part)
    requires last.kind != FCTL
    ensures var taken := TakePart(a, last);
      && taken.Ok? && taken.value.frames == AddPixels(a.frames, PixelBody(last))
      && (taken.value.animated <==> a.animated || last.kind == ACTL)
      && taken.value.header == if last.kind == IHDR then Some(last.body) else a.header
  {
    AddPixelsTwice(a.frames, [], []);
    assert a.frames != [] ==> a.frames[|a.frames| - 1].data + [] == a.frames[|a.frames| - 1].data;
  }

  lemma {:induction false} HasOneMore(parts: seq<Part>, kind: Quad)
    requires parts != []
    ensures Has(parts, kind) <==> Has(parts[..|parts| - 1], kind) || parts[|parts| - 1].kind == kind
  {
    var n := |parts| - 1;
    if i :| 0 <= i < n && parts[..n][i].kind == kind {
      assert parts[i].kind == kind;
    }
  }

  lemma {:induction false} LastHeaderOneMore(parts: seq<Part>)
    requires parts != []
    ensures var last := parts[|parts| - 1];
      if last.kind == IHDR then LastHeader(parts, last.body)
      else forall header :: LastHeader(parts[..|parts| - 1], header) ==> LastHeader(parts, header)
  {
    var n := |parts| - 1;
    if parts[n].kind == IHDR {
      assert LastHeaderAt(parts, parts[n].body, n);
    } else {
      forall header | LastHeader(parts[..n], header) ensures LastHeader(parts, header) {
        var i :| LastHeaderAt(parts[..n], header, i);
        assert forall j :: 0 <= j < n ==> parts[..n][j] == parts[j];
        assert LastHeaderAt(parts, header, i);
      }
    }
  }

  lemma {:induction false} AddPixelsTwice(frames: seq<Shown>, a: Bytes, b: Bytes)
    ensures AddPixels(AddPixels(frames, a), b) == AddPixels(frames, a + b)
    ensures AddPixels(frames, a + []) == AddPixels(frames, a)
  {
    assert a + [] == a;
    if frames != [] {
      var n := |frames| - 1;
      Associates(frames[n].data, a, b);
    }
  }

  lemma {:induction false} HasInBoth(a: seq<Part>, b: seq<Part>, kind: Quad)
    ensures Has(a + b, kind) <==> Has(a, kind) || Has(b, kind)
  {
    var all := a + b;
    assert forall i :: 0 <= i < |a| ==> all[i] == a[i];
    if i :| 0 <= i < |b| && b[i].kind == kind {
      assert all[|a| + i].kind == kind;
    }
    if i :| 0 <= i < |a| && a[i].kind == kind {
      assert all[i].kind == kind;
    }
  }

  lemma {:induction false} LastHeaderInBoth(a: seq<Part>, b: seq<Part>, header: Bytes)
    ensures LastHeader(b, header) ==> LastHeader(a + b, header)
    ensures LastHeader(a, header) && !Has(b, IHDR) ==> LastHeader(a + b, header)
  {
    var all := a + b;
    assert forall j :: |a| <= j < |all| ==> all[j] == b[j - |a|];
    if i :| LastHeaderAt(b, header, i) {
      assert LastHeaderAt(all, header, |a| + i);
    }
    if LastHeader(a, header) && !Has(b, IHDR) {
      var i :| LastHeaderAt(a, header, i);
      assert LastHeaderAt(all, header, i);
    }
  }

  /** What has been read of a file: the frames announced so far, whether it is animated, and its last header. */
  ghost predicate ReadSoFar(parts: seq<Part>, list: seq<Announced>, taken: Result<Animation, ApngError>)
    requires AreAnnounced(list)
  {
    && taken.Ok? && taken.value.frames == AllShown(list)
    && (taken.value.animated <==> Has(parts, ACTL))
    && (if Has(parts, IHDR) then taken.value.header.Some? && LastHeader(parts, taken.value.header.value)
        else taken.value.header.None?)
  }

  const BLANK := Animation(None, false, [])

  lemma {:induction false} OneFrameTaken(a: Animation, x: Announced)
    requires IsAnnounced(x)
    ensures var taken := TakeParts(a, [x.control] + x.rest);
      && taken.Ok? && taken.value.frames == a.frames + [ShownFor(x)]
      && (taken.value.animated <==> a.animated || Has([x.control] + x.rest, ACTL))
      && (if Has([x.control] + x.rest, IHDR)
          then taken.value.header.Some? && LastHeader([x.control] + x.rest, taken.value.header.value)
          else taken.value.header == a.header)
  {
    var begun := a.(frames := a.frames + [Shown(DelayOf(x.control.body), [])]);
    TakePartsAppend(a, [x.control], x.rest);
    TakeOne(a, x.control);
    RestIsTaken(begun, x.rest);
    HasInBoth([x.control], x.rest, ACTL);
    HasInBoth([x.control], x.rest, IHDR);
    assert !Has([x.control], ACTL) && !Has([x.control], IHDR);
    if Has(x.rest, IHDR) {
      LastHeaderInBoth([x.control], x.rest, TakeParts(begun, x.rest).value.header.value);
    }
    assert [] + PixelBodies(x.rest) == PixelBodies(x.rest);
    hide Has, LastHeader, TakeParts, DelayOf, PixelBodies;
    assert AddPixels(begun.frames, PixelBodies(x.rest)) == a.frames + [ShownFor(x)];
  }

  /** One frame's chunks more. */
  lemma {:induction false} ReadOneFrameMore(parts: seq<Part>, list: seq<Announced>, x: Announced)
    requires AreAnnounced(list) && IsAnnounced(x) && AreAnnounced(list + [x])
    requires ReadSoFar(parts, list, TakeParts(BLANK, parts))
    ensures var more := [x.control] + x.rest;
      ReadSoFar(parts + more, list + [x], TakeParts(BLANK, parts + more))
  {
    var more, taken := [x.control] + x.rest, TakeParts(BLANK, parts).value;
    TakePartsAppend(BLANK, parts, more);
    OneFrameTaken(taken, x);
    HasInBoth(parts, more, ACTL);
    HasInBoth(parts, more, IHDR);
    if taken.header.Some? {
      LastHeaderInBoth(parts, more, taken.header.value);
    }
    if TakeParts(taken, more).value.header.Some? {
      LastHeaderInBoth(parts, more, TakeParts(taken, more).value.header.value);
    }
    hide Has, LastHeader, TakeParts, ShownFor;
    assert AllShown(list + [x]) == AllShown(list) + [ShownFor(x)];
  }

  lemma {:induction false} LaidIsTaken(before: seq<Part>, list: seq<Announced>)
    requires !Has(before, FCTL) && AreAnnounced(list)
    ensures ReadSoFar(Laid(before, list), list, TakeParts(BLANK, Laid(before, list)))
  {
    if list == [] {
      RestIsTaken(BLANK, before);
    } else {
      hide Has, TakeParts, ReadSoFar, IsAnnounced;
      var n := |list| - 1;
      assert list == list[..n] + [list[n]] && AreAnnounced(list[..n]);
      LaidIsTaken(before, list[..n]);
      ReadOneFrameMore(Laid(before, list[..n]), list[..n], list[n]);
    }
  }

  /** A still PNG of one frame, chunk by chunk. */
  function StillFile(crc: Checksum, header: Bytes, pixels: Bytes): Bytes
    requires |header| < TWO_32 && |pixels| < TWO_32
  {
    SIGNATURE + Chunk(crc, Part(IHDR, header)) + Chunk(crc, Part(IDAT, pixels)) + Chunk(crc, Part(IEND, []))
  }

  lemma {:induction false} StillIsItsFile(crc: Checksum, header: Bytes, shown: Shown)
    requires |header| < TWO_32 && |shown.data| < TWO_32
    ensures Still(crc, header, shown) == Frame(StillFile(crc, header, shown.data), shown.delayMs as real)
  {
    var a, b, c := Part(IHDR, header), Part(IDAT, shown.data), Part(IEND, []);
    RenderTwo(crc, a, a);
    RenderTwo(crc, b, b);
    RenderTwo(crc, c, c);
    assert StillParts(header, shown.data) == [a] + [b] + [c];
    hide Chunk, Render, StillParts;
    RenderThree(crc, [a], [b], [c]);
    Associates(SIGNATURE, Chunk(crc, a), Chunk(crc, b) + Chunk(crc, c));
    Associates(SIGNATURE + Chunk(crc, a), Chunk(crc, b), Chunk(crc, c));
  }

  /** One frame taken out: its delay, and a still PNG of the file's header and its own pixels. */
  predicate IsTakenOut(crc: Checksum, header: Bytes, x: Announced, frame: Frame) {
    && |x.control.body| >= 24 && |header| < TWO_32 && |PixelBodies(x.rest)| < TWO_32
    && frame == Frame(StillFile(crc, header, PixelBodies(x.rest)), DelayOf(x.control.body) as real)
  }

  lemma {:induction false} StillsAreTakenOut(crc: Checksum, header: Bytes, list: seq<Announced>)
    requires |header| < TWO_32 && AreAnnounced(list) && Small(AllShown(list))
    ensures var stills := Stills(crc, header, AllShown(list));
      |stills| == |list| && forall i :: 0 <= i < |list| ==> IsTakenOut(crc, header, list[i], stills[i])
  {
    hide Still, StillFile, PixelBodies, DelayOf;
    var shown := AllShown(list);
    forall i | 0 <= i < |list|
      ensures IsTakenOut(crc, header, list[i], Still(crc, header, shown[i])) && |shown[i].data| < TWO_32
    {
      StillIsItsFile(crc, header, shown[i]);
    }
  }

  /** What the splitter returns once it has read all chunks. */
  function Returned(crc: Checksum, a: Animation): Result<seq<Frame>, ApngError>
    requires SmallHeader(a)
  {
    if !a.animated || a.header.None? then Err(NotAnimated)
    else if !Small(a.frames) then Err(OutOfRange)
    else Ok(Stills(crc, a.header.value, a.frames))
  }

  lemma {:induction false} EndAddsNothing(parts: seq<Part>, last: Part)
    requires last.kind == IEND && TakeParts(BLANK, parts).Ok?
    ensures TakeParts(BLANK, parts + [last]) == TakeParts(BLANK, parts)
  {
    TakePartsAppend(BLANK, parts, [last]);
    TakeOne(TakeParts(BLANK, parts).value, last);
    hide TakeParts;
  }

  lemma {:induction false} ReadIsReturned(crc: Checksum, png: Bytes, parts: seq<Part>)
    requires HasSignature(png) && ChunksFrom(png, |SIGNATURE|) == Ok(parts) && TakeParts(BLANK, parts).Ok?
    ensures SmallHeader(TakeParts(BLANK, parts).value)
    ensures Split(crc, png) == Returned(crc, TakeParts(BLANK, parts).value)
  {
    TakeFromParts(png, |SIGNATURE|, parts, BLANK);
    hide ChunksFrom, TakeParts, TakeFrom, HasSignature;
  }

  lemma {:induction false} SplitIsReturned(crc: Checksum, parts: seq<Part>, last: Part, after: Bytes)
    requires Sized(parts + [last]) && !Has(parts, IEND) && last.kind == IEND && TakeParts(BLANK, parts).Ok?
    ensures SmallHeader(TakeParts(BLANK, parts).value)
    ensures Split(crc, SIGNATURE + Render(crc, parts + [last]) + after) == Returned(crc, TakeParts(BLANK, parts).value)
  {
    var all, png := parts + [last], SIGNATURE + Render(crc, parts + [last]) + after;
    assert forall i :: 0 <= i < |parts| ==> all[i] == parts[i];
    assert Closed(all);
    hide Render, Has, Sized, Closed, ChunksFrom, TakeParts;
    assert png[..|SIGNATURE|] == SIGNATURE && png[|SIGNATURE|..] == Render(crc, all) + after;
    RenderedIsRead(crc, png, |SIGNATURE|, all, after);
    EndAddsNothing(parts, last);
    hide Split, Returned;
    ReadIsReturned(crc, png, all);
  }

  /** The one outcome that splitting some chunks has, in terms of the chunks alone. */
  ghost predicate IsTakenApart(crc: Checksum, parts: seq<Part>, list: seq<Announced>,
      split: Result<seq<Frame>, ApngError>)
  {
    && (!Has(parts, ACTL) || !Has(parts, IHDR) ==> split == Err(NotAnimated))
    && (Has(parts, ACTL) && Has(parts, IHDR) && TooLong(list) ==> split == Err(OutOfRange))
    && (Has(parts, ACTL) && Has(parts, IHDR) && !TooLong(list) ==>
      && split.Ok? && |split.value| == |list|
      && exists header :: LastHeader(parts, header) && AllTakenOut(crc, header, list, split.value))
  }

  ghost predicate AllTakenOut(crc: Checksum, header: Bytes, list: seq<Announced>, frames: seq<Frame>) {
    |frames| == |list| && forall i :: 0 <= i < |list| ==> IsTakenOut(crc, header, list[i], frames[i])
  }

  /** Some frame's pixels do not fit one chunk. */
  predicate TooLong(list: seq<Announced>) {
    exists i :: 0 <= i < |list| && |PixelBodies(list[i].rest)| >= TWO_32
  }

  lemma {:induction false} ReturnedIsTakenApart(crc: Checksum, parts: seq<Part>, list: seq<Announced>,
      taken: Result<Animation, ApngError>)
    requires AreAnnounced(list) && ReadSoFar(parts, list, taken) && SmallHeader(taken.value)
    ensures IsTakenApart(crc, parts, list, Returned(crc, taken.value))
  {
    hide Has, LastHeader, PixelBodies, DelayOf, Stills, IsTakenOut;
    var shown := AllShown(list);
    assert forall i :: 0 <= i < |list| ==> shown[i].data == PixelBodies(list[i].rest);
    if Has(parts, IHDR) && Small(shown) {
      StillsAreTakenOut(crc, taken.value.header.value, list);
    }
  }

  /**
   What is taken out of an animation, for every file of chunks that announces its frames by
   control chunks of full length: its frames in their order, each for the delay its control
   says and with the pixels that follow it up to the next, as stills under the file's last
   header; and no frames but an error exactly when the file is not said to be animated, has
   no header, or has pixels too long for one chunk.
   */
  lemma {:induction false} AnimationIsTakenApart(crc: Checksum, before: seq<Part>, list: seq<Announced>, last: Part,
      after: Bytes)
    requires !Has(before, FCTL) && AreAnnounced(list) && last.kind == IEND
    requires Sized(Laid(before, list) + [last]) && !Has(Laid(before, list), IEND)
    ensures IsTakenApart(crc, Laid(before, list), list,
      Split(crc, SIGNATURE + Render(crc, Laid(before, list) + [last]) + after))
  {
    var parts := Laid(before, list);
    LaidIsTaken(before, list);
    hide Has, LastHeader, TakeParts, Laid, Render, Sized, IsTakenApart, Split;
    SplitIsReturned(crc, parts, last, after);
    ReturnedIsTakenApart(crc, parts, list, TakeParts(BLANK, parts));
  }

  predicate CutsAControl(parts: seq<Part>) {
    exists i :: 0 <= i < |parts| && parts[i].kind == FCTL && |parts[i].body| < 24
  }

  lemma {:induction false} ShortControlIsAnError(a: Animation, parts: seq<Part>)
    ensures TakeParts(a, parts).Err? <==> CutsAControl(parts)
    ensures TakeParts(a, parts).Err? ==> TakeParts(a, parts).error == OutOfRange
  {
    if parts != [] {
      var n := |parts| - 1;
      ShortControlIsAnError(a, parts[..n]);
      assert forall i :: 0 <= i < n ==> parts[..n][i] == parts[i];
      hide DelayOf, AddPixels;
    }
  }

  /** And a control chunk too short to hold a delay is an error, wherever it stands. */
  lemma {:induction false} ShortControlThrows(crc: Checksum, parts: seq<Part>, last: Part, after: Bytes)
    requires Sized(parts + [last]) && !Has(parts, IEND) && last.kind == IEND && CutsAControl(parts)
    ensures Split(crc, SIGNATURE + Render(crc, parts + [last]) + after) == Err(OutOfRange)
  {
    var all, png := parts + [last], SIGNATURE + Render(crc, parts + [last]) + after;
    assert forall i :: 0 <= i < |parts| ==> all[i] == parts[i];
    assert Closed(all) && CutsAControl(all);
    hide Render, Has, Sized, Closed, ChunksFrom, TakeParts, CutsAControl;
    assert png[..|SIGNATURE|] == SIGNATURE && png[|SIGNATURE|..] == Render(crc, all) + after;
    RenderedIsRead(crc, png, |SIGNATURE|, all, after);
    TakeFromParts(png, |SIGNATURE|, all, BLANK);
    ShortControlIsAnError(BLANK, all);
    hide TakeFrom;
  }
}
