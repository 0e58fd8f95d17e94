/**
 The bounded recorder a flow's frames go through on their way to an animated PNG.
 Whatever is appended, it holds the longest run of latest frames that meets both of
 its bounds.
 */
module FlowRecording {
  import opened Prelude
  import opened Apng

  const STILL_MAX_MS := 5_000
  const LAST_FRAME_MS := 2_000

  /** A screenshot and the millisecond it was kept at. */
  datatype Shot = Shot(png: Bytes, at: int)

  function TotalBytes(shots: seq<Shot>): nat {
    if shots == [] then 0 else |shots[0].png| + TotalBytes(shots[1..])
  }

  /** Both bounds met; nothing at all meets any bound. */
  predicate Fits(shots: seq<Shot>, maxFrames: nat, maxBytes: int) {
    shots == [] || (|shots| <= maxFrames && TotalBytes(shots) <= maxBytes)
  }

  /** What is held is the longest run of latest frames that fits. */
  ghost predicate IsLongest(held: seq<Shot>, all: seq<Shot>, maxFrames: nat, maxBytes: int) {
    && |held| <= |all| && held == all[|all| - |held|..]
    && Fits(held, maxFrames, maxBytes)
    && forall i :: 0 <= i < |all| - |held| ==> !Fits(all[i..], maxFrames, maxBytes)
  }

  lemma {:induction false} TotalAppend(a: seq<Shot>, b: seq<Shot>)
    ensures TotalBytes(a + b) == TotalBytes(a) + TotalBytes(b)
  {
    if a == [] {
      assert a + b == b;
    } else {
      assert (a + b)[1..] == a[1..] + b;
      TotalAppend(a[1..], b);
    }
  }

  /** A run of latest frames that did not fit does not fit with one frame more. */
  lemma {:induction false} StillTooMuch(all: seq<Shot>, shot: Shot, i: nat, maxFrames: nat, maxBytes: int)
    requires i < |all| && !Fits(all[i..], maxFrames, maxBytes)
    ensures !Fits((all + [shot])[i..], maxFrames, maxBytes)
  {
    assert (all + [shot])[i..] == all[i..] + [shot];
    TotalAppend(all[i..], [shot]);
  }

  /** The latest frames but for the oldest `dropped`, none of the longer runs fitting. */
  ghost predicate Tail(held: seq<Shot>, bytes: int, dropped: nat, all: seq<Shot>, maxFrames: nat, maxBytes: int) {
    && dropped + |held| == |all| && held == all[dropped..]
    && bytes == TotalBytes(held)
    && forall i :: 0 <= i < dropped ==> !Fits(all[i..], maxFrames, maxBytes)
  }

  lemma {:induction false} TailGrows(held: seq<Shot>, bytes: int, dropped: nat, all: seq<Shot>, maxFrames: nat,
      maxBytes: int, shot: Shot)
    requires Tail(held, bytes, dropped, all, maxFrames, maxBytes)
    ensures Tail(held + [shot], bytes + |shot.png|, dropped, all + [shot], maxFrames, maxBytes)
  {
    TotalAppend(held, [shot]);
    forall i | 0 <= i < dropped ensures !Fits((all + [shot])[i..], maxFrames, maxBytes) {
      StillTooMuch(all, shot, i, maxFrames, maxBytes);
    }
  }

  lemma {:induction false} TailShrinks(held: seq<Shot>, bytes: int, dropped: nat, all: seq<Shot>,
      maxFrames: nat, maxBytes: int)
    requires Tail(held, bytes, dropped, all, maxFrames, maxBytes) && held != []
    requires |held| > maxFrames || bytes > maxBytes
    ensures Tail(held[1..], bytes - |held[0].png|, dropped + 1, all, maxFrames, maxBytes)
  {
    assert !Fits(all[dropped..], maxFrames, maxBytes);
  }

  lemma {:induction false} TailIsLongest(held: seq<Shot>, bytes: int, dropped: nat, all: seq<Shot>,
      maxFrames: nat, maxBytes: int)
    requires Tail(held, bytes, dropped, all, maxFrames, maxBytes)
    requires held == [] || (|held| <= maxFrames && bytes <= maxBytes)
    ensures IsLongest(held, all, maxFrames, maxBytes)
    ensures bytes == TotalBytes(held) && dropped + |held| == |all|
  {
  }

  class Recorder {
    const maxFrames: nat
    const maxBytes: int
    var frames: seq<Shot>
    var bytes: int
    var taken: nat
    var dropped: nat
    var failed: nat
    var firstFailure: Option<string>
    var stopped: bool
    /** Every frame that was not the frame before it, kept or not. */
    ghost var appended: seq<Shot>
    /** The captures begun, and those of them that have not come to anything yet. */
    ghost var begun: nat
    ghost var underWay: nat

    ghost predicate Valid()
      reads this
    {
      && Holding()
      && begun == taken + failed + underWay
      && (failed > 0 <==> firstFailure.Some?)
    }

    constructor (maxFrames: int, maxBytes: int)
      ensures Valid() && appended == [] && !stopped && taken == failed == begun == 0
      ensures this.maxFrames == Max(1, maxFrames) && this.maxBytes == maxBytes
    {
      this.maxFrames := Max(1, maxFrames);
      this.maxBytes := maxBytes;
      frames, bytes, taken, dropped, failed := [], 0, 0, 0, 0;
      firstFailure, stopped, appended, begun, underWay := None, false, [], 0, 0;
    }

    /** What every frame held and dropped rests on, whatever is under way. */
    ghost predicate Holding()
      reads this
    {
      && maxFrames > 0
      && bytes == TotalBytes(frames)
      && dropped + |frames| == |appended|
      && IsLongest(frames, appended, maxFrames, maxBytes)
      && |appended| <= taken
    }

    /** Keeps a frame unless it is the frame before it, and lets the oldest go until both bounds are met. */
    method Keep(png: Bytes, now: int)
      requires Holding()
      modifies `frames, `bytes, `taken, `dropped, `appended
      ensures Holding() && taken == old(taken) + 1
      ensures appended == if old(frames != [] && frames[|frames| - 1].png == png) then old(appended)
        else old(appended) + [Shot(png, now)]
    {
      taken := taken + 1;
      if Repeats(frames, png) {
        return;
      }
      hide Tail, TotalBytes;
      var shot := Shot(png, now);
      HeldIsTail();
      TailGrows(frames, bytes, dropped, appended, maxFrames, maxBytes, shot);
      frames := frames + [shot];
      bytes := bytes + |png|;
      appended := appended + [shot];
      DropOldest();
      TailIsLongest(frames, bytes, dropped, appended, maxFrames, maxBytes);
    }

    /** Lets the oldest frames go until what is left fits, down to none when the last alone does not. */
    method DropOldest()
      requires Tail(frames, bytes, dropped, appended, maxFrames, maxBytes)
      modifies `frames, `bytes, `dropped
      ensures Tail(frames, bytes, dropped, appended, maxFrames, maxBytes)
      ensures frames == [] || (|frames| <= maxFrames && bytes <= maxBytes)
    {
      hide Tail;
      while frames != [] && (|frames| > maxFrames || bytes > maxBytes)
        invariant Tail(frames, bytes, dropped, appended, maxFrames, maxBytes)
        decreases |frames|
      {
        TailShrinks(frames, bytes, dropped, appended, maxFrames, maxBytes);
        bytes := bytes - |frames[0].png|;
        frames := frames[1..];
        dropped := dropped + 1;
      }
    }

    lemma {:induction false} HeldIsTail()
      requires Holding()
      ensures Tail(frames, bytes, dropped, appended, maxFrames, maxBytes)
    {
    }

    /** Begins a capture, unless the recorder has stopped. */
    method BeginTake() returns (begins: bool)
      requires Valid()
      modifies `begun, `underWay
      ensures Valid() && (begins <==> !stopped)
      ensures begun == old(begun) + if begins then 1 else 0
      ensures underWay == old(underWay) + if begins then 1 else 0
    {
      if stopped {
        return false;
      }
      begun, underWay := begun + 1, underWay + 1;
      return true;
    }

    /**
     What a capture comes to: its frame is kept, or why there is none is counted. One
     that was under way when the recorder stopped is treated no differently.
     */
    method EndTake(frame: Result<Bytes, string>, now: int)
      requires Valid() && underWay > 0
      modifies this
      ensures Valid() && stopped == old(stopped) && begun == old(begun) && underWay == old(underWay) - 1
      ensures frame.Ok? ==> taken == old(taken) + 1 && failed == old(failed) && firstFailure == old(firstFailure)
      ensures frame.Ok? ==>
        appended == if old(frames != [] && frames[|frames| - 1].png == frame.value) then old(appended)
          else old(appended) + [Shot(frame.value, now)]
      ensures frame.Err? ==>
        taken == old(taken) && failed == old(failed) + 1 && frames == old(frames) && appended == old(appended)
      ensures frame.Err? ==> firstFailure == if old(firstFailure).Some? then old(firstFailure) else Some(frame.error)
    {
      underWay := underWay - 1;
      match frame
      case Ok(png) => Keep(png, now);
      case Err(why) =>
        failed := failed + 1;
        if firstFailure.None? {
          firstFailure := Some(why);
        }
    }

    /** From here on no capture begins; what is under way still comes to something. */
    method Stop()
      requires Valid()
      modifies `stopped
      ensures Valid() && stopped
    {
      stopped := true;
    }

    /** What is held, put together; none when nothing is. */
    method AssembleRecording(crc: Checksum, endedAt: int) returns (r: Option<Result<Recording, ApngError>>)
      requires Valid()
      ensures r.None? <==> frames == []
      ensures r.Some? ==> r.value == RecordingOf(crc, frames, endedAt, dropped)
    {
      hide Assemble, IsLongest, TotalBytes;
      if frames == [] {
        return None;
      }
      var timed: seq<Frame> := [];
      for i := 0 to |frames|
        invariant |timed| == i && forall k :: 0 <= k < i ==>
          timed[k] == Frame(frames[k].png, DelayOfShot(frames, k) as real)
      {
        var delayMs := if i + 1 < |frames| then Min(STILL_MAX_MS, Max(1, frames[i + 1].at - frames[i].at))
          else LAST_FRAME_MS;
        timed := timed + [Frame(frames[i].png, delayMs as real)];
      }
      assert timed == Timed(frames);
      var assembled := AssembleApng(crc, timed);
      if assembled.Err? {
        return Some(Err(assembled.error));
      }
      var duration := Max(0, endedAt - frames[0].at);
      return Some(Ok(Recording(assembled.value.apng, assembled.value.frames, duration, dropped,
        assembled.value.skipped)));
    }
  }

  /** Whether a frame is the latest one held once more. */
  predicate Repeats(frames: seq<Shot>, png: Bytes) {
    frames != [] && frames[|frames| - 1].png == png
  }

  datatype Recording = Recording(apng: Bytes, frames: nat, durationMs: int, dropped: nat, skipped: nat)

  /** How long a held frame is shown: until the next, within bounds, and the last one long enough to read. */
  function DelayOfShot(shots: seq<Shot>, i: nat): (d: int)
    requires i < |shots|
    ensures 1 <= d <= STILL_MAX_MS
    ensures i == |shots| - 1 ==> d == 2000
    ensures i < |shots| - 1 ==> var gap := shots[i + 1].at - shots[i].at;
      (gap < 1 ==> d == 1) && (gap > 5000 ==> d == 5000) && (1 <= gap <= 5000 ==> d == gap)
  {
    if i + 1 < |shots| then Min(STILL_MAX_MS, Max(1, shots[i + 1].at - shots[i].at)) else LAST_FRAME_MS
  }

  function Timed(shots: seq<Shot>): (timed: seq<Frame>)
    ensures |timed| == |shots|
    ensures forall i :: 0 <= i < |shots| ==> timed[i] == Frame(shots[i].png, DelayOfShot(shots, i) as real)
  {
    seq(|shots|, i requires 0 <= i < |shots| => Frame(shots[i].png, DelayOfShot(shots, i) as real))
  }

  function RecordingOf(crc: Checksum, shots: seq<Shot>, endedAt: int, dropped: nat): Result<Recording, ApngError>
    requires shots != []
  {
    match Assemble(crc, Timed(shots))
    case Err(e) => Err(e)
    case Ok(a) => Ok(Recording(a.apng, a.frames, Max(0, endedAt - shots[0].at), dropped, a.skipped))
  }

  /** There is one longest run that fits, so the bounds and the frames alone say what is held. */
  lemma {:induction false} LongestIsUnique(a: seq<Shot>, b: seq<Shot>, all: seq<Shot>, maxFrames: nat, maxBytes: int)
    requires IsLongest(a, all, maxFrames, maxBytes) && IsLongest(b, all, maxFrames, maxBytes)
    ensures a == b
  {
  }

  /** A delay the recorder gives is one the file keeps as it is. */
  lemma {:induction false} DelayIsKept(shots: seq<Shot>, i: nat)
    requires i < |shots|
    ensures ClampedDelay(DelayOfShot(shots, i) as real) == DelayOfShot(shots, i)
  {
    assert Round(DelayOfShot(shots, i) as real) == DelayOfShot(shots, i);
  }

  /** The shots that are on the canvas of the first, by their places. */
  function OnCanvas(shots: seq<Shot>, header: Bytes, n: nat): (r: seq<nat>)
    requires n <= |shots|
    ensures forall k :: 0 <= k < |r| ==> r[k] < n
  {
    if n == 0 then []
    else
      var before := OnCanvas(shots, header, n - 1);
      if PartsOf(shots[n - 1].png).Ok? && PartsOf(shots[n - 1].png).value.header == header then before + [n - 1]
      else before
  }

  /** What is kept of the shot at a place: its pixels and its delay, the canvas being its own. */
  predicate IsKeptOf(shots: seq<Shot>, header: Bytes, kept: Kept, place: nat) {
    && place < |shots| && PartsOf(shots[place].png).Ok? && PartsOf(shots[place].png).value.header == header
    && kept == Kept(PartsOf(shots[place].png).value.data, DelayOfShot(shots, place) as real)
  }

  lemma {:induction false} KeepOneMore(shots: seq<Shot>, header: Bytes, n: nat)
    requires n < |shots| && KeepFrames(Timed(shots)[..n + 1], header).Ok?
    ensures KeepFrames(Timed(shots)[..n], header).Ok?
    ensures var before, after :=
      KeepFrames(Timed(shots)[..n], header).value, KeepFrames(Timed(shots)[..n + 1], header).value;
      || (after == before && OnCanvas(shots, header, n + 1) == OnCanvas(shots, header, n))
      || (|after| == |before| + 1 && after[..|before|] == before && IsKeptOf(shots, header, after[|before|], n)
          && OnCanvas(shots, header, n + 1) == OnCanvas(shots, header, n) + [n])
  {
    hide PartsOf, DelayOfShot;
    var timed := Timed(shots);
    assert timed[..n + 1][..n] == timed[..n] && timed[..n + 1][n] == timed[n];
  }

  lemma {:induction false} KeptAreOnCanvas(shots: seq<Shot>, header: Bytes, n: nat)
    requires n <= |shots| && KeepFrames(Timed(shots)[..n], header).Ok?
    ensures var kept, places := KeepFrames(Timed(shots)[..n], header).value, OnCanvas(shots, header, n);
      |kept| == |places| && forall k :: 0 <= k < |kept| ==> IsKeptOf(shots, header, kept[k], places[k])
  {
    hide IsKeptOf, Timed;
    if n > 0 {
      hide KeepFrames, OnCanvas;
      KeepOneMore(shots, header, n - 1);
      KeptAreOnCanvas(shots, header, n - 1);
    }
  }

  lemma {:induction false} AssembledIsPlanned(crc: Checksum, frames: seq<Frame>)
    requires Assemble(crc, frames).Ok?
    ensures Planned(frames).Ok?
  {
    hide Planned;
  }

  lemma {:induction false} PlannedIsKept(shots: seq<Shot>)
    requires Planned(Timed(shots)).Ok?
    ensures KeepFrames(Timed(shots)[..|shots|], Planned(Timed(shots)).value.0) == Ok(Planned(Timed(shots)).value.1)
  {
    assert Timed(shots)[..|shots|] == Timed(shots);
  }

  lemma {:induction false} StillOfShot(crc: Checksum, header: Bytes, kept: seq<Kept>, shots: seq<Shot>,
      places: seq<nat>, k: nat)
    requires 13 <= |header| < TWO_32 && Small(ShownOf(kept)) && |kept| == |places| && k < |places|
    requires IsKeptOf(shots, header, kept[k], places[k])
    ensures PartsOf(shots[places[k]].png).Ok?
      && PartsOf(Stills(crc, header, ShownOf(kept))[k].png) == PartsOf(shots[places[k]].png)
    ensures Stills(crc, header, ShownOf(kept))[k].delayMs == DelayOfShot(shots, places[k]) as real
  {
    hide PartsOf, DelayOfShot;
    DelayIsKept(shots, places[k]);
    StillIsRead(crc, header, ShownOf(kept)[k]);
  }

  /**
   A recording taken apart again shows every held frame that is on the canvas, in
   order, for exactly the delay the recorder gave it.
   */
  lemma {:induction false} RecordingShowsWhatWasHeld(crc: Checksum, shots: seq<Shot>)
    requires shots != [] && Assemble(crc, Timed(shots)).Ok?
    ensures var header := Planned(Timed(shots)).value.0; var places := OnCanvas(shots, header, |shots|);
      var stills := Split(crc, Assemble(crc, Timed(shots)).value.apng);
      && stills.Ok? && |stills.value| == |places|
      && forall k :: 0 <= k < |places| ==>
        && PartsOf(shots[places[k]].png).Ok?
        && PartsOf(stills.value[k].png) == PartsOf(shots[places[k]].png)
        && stills.value[k].delayMs == DelayOfShot(shots, places[k]) as real
  {
    hide Assemble, Split, KeepFrames, PartsOf, OnCanvas, DelayOfShot, Still;
    var timed := Timed(shots);
    AssembledIsPlanned(crc, timed);
    var header, kept := Planned(timed).value.0, Planned(timed).value.1;
    var places := OnCanvas(shots, header, |shots|);
    PlannedIsKept(shots);
    KeptAreOnCanvas(shots, header, |shots|);
    SplitUndoesAssemble(crc, timed);
    PlannedIsUsable(timed);
    forall k | 0 <= k < |places|
      ensures PartsOf(Stills(crc, header, ShownOf(kept))[k].png) == PartsOf(shots[places[k]].png)
      ensures Stills(crc, header, ShownOf(kept))[k].delayMs == DelayOfShot(shots, places[k]) as real
    {
      StillOfShot(crc, header, kept, shots, places, k);
    }
  }

  /**
   A recording says how many of the held frames its file shows and how many it does not, how many
   were let go before, and how long it is: from the first frame held to the end, or not at all.
   */
  lemma {:induction false} RecordingSays(crc: Checksum, shots: seq<Shot>, endedAt: int, dropped: nat)
    requires shots != [] && RecordingOf(crc, shots, endedAt, dropped).Ok?
    ensures var r := RecordingOf(crc, shots, endedAt, dropped).value; var stills := Split(crc, r.apng);
      && stills.Ok? && r.frames == |stills.value| && r.frames + r.skipped == |shots| && r.dropped == dropped
      && (endedAt < shots[0].at ==> r.durationMs == 0)
      && (endedAt >= shots[0].at ==> r.durationMs == endedAt - shots[0].at)
  {
    hide Split, DelayOfShot, KeepFrames, Stills, Still;
    var timed := Timed(shots);
    AssembledIsPlanned(crc, timed);
    SplitUndoesAssemble(crc, timed);
  }
}
