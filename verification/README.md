# qare: a verified model

qare turns executed QA evidence into verdicts that are decided by code. This project
models the parts of it where a mistake would be silent: two jobs publishing to one
branch, a baseline that excuses violations, a recording that is taken apart again, a
listener reading bytes a pull request wrote, a cache key, a second opinion on a verdict,
and reconcilers that may die between two API calls. Every theorem is about all inputs,
all runs or all histories.

`dafny verify dfyconfig.toml` checks the whole project.

| file | what it models |
|---|---|
| `Prelude.dfy` | types, big-endian numbers and sequence facts the others share |
| `BranchPublish.dfy` | any number of calls publishing to one fast-forward-only branch, interleaved in any way |
| `A11yMatch.dfy`, `A11y.dfy`, `A11yRecord.dfy` | the matching that excuses accessibility violations, the decision made with it, and the base side's record written and read back |
| `Apng.dfy`, `ApngMeaning.dfy`, `FlowRecording.dfy` | the animated PNG assembler and splitter byte for byte, what is read of any file, and the bounded recorder that feeds the assembler |
| `CellWire.dfy`, `CellPeek.dfy`, `CellMeaning.dfy` | DNS, TLS and HTTP read far enough to name a host, and which messages name which |
| `CellStreams.dfy`, `CellRelay.dfy`, `CellLink.dfy` | the shim's end of a carried connection, the gate's end, and both with the bytes in flight between them |
| `CellGate.dfy` | what the gate answers, dials and records |
| `JsonText.dfy`, `StableJson.dfy` | JSON printed and read back, the canonical form, and the cache keys made of it |
| `Judge.dfy`, `Verifier.dfy`, `JudgeExecuted.dfy` | verdicts, the batched second opinion, and the one path from result to judged verdict |
| `MainFindings.dfy`, `MainFindingsRuns.dfy` | issues filed, reopened and closed by runs that may die, beside people who close and reopen them, and what an undisturbed run leaves |
| `AdvisoryReplies.dfy`, `AdvisorySweeps.dfy` | data carried in a comment, and the sweeps that carry out what people reply |
| `Flow.dfy` | the flow interpreter against a page that may throw anywhere |
| `CommitPaging.dfy` | the newest commits of a range in at most three pages |

Code that changes state in place is modelled as classes, methods with loops and arrays,
each proved against a function or a closed form; protocols are state machines whose
schedules are arbitrary. Nondeterminism (a model's answers, a page, the network, people,
deaths) is a parameter or an event, never an assumption about its content. Every lemma
turns automatic induction off, so a proof is what its body says.

## What turned out not to hold

Each of these is proved, with the exact condition under which the code does what is
promised.

- A call of `pushMainPasses` that throws may still have added its commit: exactly when
  the server accepted the push and the reply was lost
  (`BranchPublish.ThrowingAddsNothingIffNoReplyWasLost`, `BranchPublish.LostReplyThrowsAfterLanding`;
  `BranchPublish.OneLostReplyIsEnough` runs it from the start).
- A run can file a second issue for a finding. For an issue reopened at any moment of a
  run left to itself otherwise, it does so if and only if the issue is its own, closed,
  marked and unlisted, its finding is still to be searched for, and fewer of the findings
  before that one are without an issue than the run may still file
  (`MainFindings.SecondIssueExactlyWhen`; `MainFindings.ReopenedWhileFiling` is such a run).
  Over whole histories the one thing to keep from is a search that overlooks an issue
  standing open (`MainFindings.OneIssuePerFinding`, `MainFindings.OverlookedIsFiledTwice`).
- An issue is closed before its markers are retired, so no run loses one, wherever it
  dies (`MainFindings.NoIssueIsLost`, `MainFindings.NoDeathLosesAnIssue`); but a person who
  reopens one can. It then stands open where no run finds it: exactly when its markers are
  gone, or the run under way has closed it and is about to retire them
  (`MainFindings.ReopeningLosesExactlyWhen`).
- A base with more violations can add new findings. It never does, whatever the head and
  the profile, if and only if it audited nothing the smaller base did not
  (`A11y.LargerBaseNeverFailsMoreIff`; `A11y.NewAuditMayFailWhatWasUnverified` is an input).
- `listCommitsBetween` falls short of what is asked exactly when the range is longer than
  200 commits and the limit exceeds 100 and what stands on the last page
  (`CommitPaging.ListCommitsBetween`); up to a limit of 100 it never does.
- The gate does not forward all that follows a request line however it is cut: it does so
  if and only if nothing arrives between the read that ends the line and the dial's
  connecting (`CellRelay.AllIsForwardedExactlyWhen`; `CellRelay.LateBytesAreLost` is an
  input). The shim writes nothing in that time, so between the two nothing is lost
  (`CellLink.NothingWhileDialling`, `CellLink.CarryThrough`).
- The gate's `declared` flags are right for every sequence of requests exactly when the
  host named "unknown" is never dialled under the key of a nameless request, or nothing is
  recorded at all (`CellGate.FlagsAreRightExactlyWhen`); for what the run hands the gate,
  when no declaration covers that name (`CellGate.DeclaredIsDialled`).
- Canonical JSON tells apart everything but what JSON itself does not: a number that is
  not finite prints as null does (`StableJson.SameTextIsSameMeaning`).

## Model

| member | source | states |
|---|---|---|
| BranchPublish.FastForwardIsCompareAndSwap | packages/action/src/github.ts:501-516 | whatever other calls did meanwhile, the server takes a call's commit exactly when the branch still stands where the call read it |
| BranchPublish.StepKeepsInv | packages/action/src/qa-assets.ts:119-168 | every action of every call, faults included, keeps: a stored commit is what its job makes of its parent, what a call read is a prefix of the branch, a commit waiting to be pushed is not on it, and a call landed as often as it returned or lost a reply |
| BranchPublish.BranchOnlyGrows | packages/action/src/github.ts:501-506 | over any schedule the branch's history before is a prefix of its history after |
| BranchPublish.HeadHoldsReplay | packages/action/src/qa-assets.ts:122-128 | a path at the head of a chain holds what its jobs, one after another in commit order, make of the path's content at the start |
| BranchPublish.NoLostUpdate | packages/action/src/qa-assets.ts:112-140 | no lost update: after any schedule every path at the head is the landed calls' builds applied in commit order, and the calls that landed are those that returned or lost a reply |
| BranchPublish.ThrowingAddsNothingIffNoReplyWasLost | packages/action/src/qa-assets.ts:127-136 | a call that throws added no commit if and only if no reply to an accepted push was lost; a record call lands at most once |
| BranchPublish.LostReplyThrowsAfterLanding | packages/action/src/qa-assets.ts:127-136 | wherever a record call pushes onto an unmoved branch, a lost reply makes it throw with its commit landed |
| BranchPublish.OneLostReplyIsEnough | packages/action/src/qa-assets.ts:119-137 | so it happens in a schedule of five actions: from any start, a record call alone whose first reply is lost has thrown and landed |
| BranchPublish.ReturnedFilesStay | packages/action/src/qa-assets.ts:142-168 | every file of every call that returned is at the head, whatever lands after it, when no other call writes its path |
| BranchPublish.StepKeepsPaid | packages/action/src/qa-assets.ts:120-137 | with nothing failing but races, every attempt a call has spent was spent because the branch grew while it was under way |
| BranchPublish.GivingUpNeedsThreeOthers | packages/action/src/qa-assets.ts:120-137 | so a call that gives up after three attempts saw three others land, and up to three calls at once never give up |
| BranchPublish.PushComesTo | packages/action/src/qa-assets.ts:127-137 | what each push comes to, by the server's answer, the job and the attempt: returned exactly when it hears that it landed; thrown exactly when not and this was its third attempt, or a record's was no lost race; else the head is read afresh; and when the branch moves |
| BranchPublish.ThrowsAtItsThirdPush | packages/action/src/qa-assets.ts:155-167 | whatever the others do, a call that fails only at its pushes, and a record's only at lost races, throws after its third push and at no other |
| BranchPublish.FailingEndsTheCall | packages/action/src/qa-assets.ts:119-126 | what fails before a push ends its call at any attempt, adds nothing and leaves the branch alone |
| A11yMatch.HitsWithinBase | packages/core/src/a11y.ts:249-287 | the exact and the place counters stay coupled: phase one never takes more from a place than the base has there |
| A11yMatch.ExcusedAreTheSmallerCount | packages/core/src/a11y.ts:276-294 | in each class (audit, rule, index-free path; or exact identity where there is no path) the violations excused number exactly the smaller of head's and base's count |
| A11yMatch.KnownIdentityIsExcused | packages/core/src/a11y.ts:276-287 | a violation whose exact identity the base has at least as often as the head is never new |
| A11yMatch.NoMatchingExcusesMore | packages/core/src/a11y.ts:271-295 | the greedy matching is optimal: no assignment of distinct base violations, each of the same audit and rule at a path that differs in its indexes alone (or the very same, without a path), excuses more of the head's |
| A11yMatch.OrderDoesNotMatter | packages/core/src/a11y.ts:271-295 | permuting either side's violations does not change how many are excused |
| A11yMatch.LargerBaseExcusesNoFewer | packages/core/src/a11y.ts:256-295 | a base that holds more never excuses fewer |
| A11yMatch.BaseOrderDoesNotMatter | packages/core/src/a11y.ts:256-295 | each violation's own fate depends on the base as a multiset alone |
| A11yMatch.SegmentsAreApart | packages/core/src/a11y.ts:189-192 | a path's segments lose their indexes each on its own |
| A11yMatch.SegmentLosesItsIndex | packages/core/src/a11y.ts:189-192 | a segment loses the `[digits]` it ends with and no other part of it |
| A11yMatch.SegmentWithoutIndexStays | packages/core/src/a11y.ts:189-192 | one that ends with none stays as it is |
| A11y.CountBase | packages/core/src/a11y.ts:253-259 | the counters hold, for each identity and each place, how often the base has it |
| A11y.FirstPhase | packages/core/src/a11y.ts:276-287 | after phase one the counters are the base less its exact hits, and the unmatched are the audited misses in order |
| A11y.SecondPhase | packages/core/src/a11y.ts:288-294 | after phase two every pending violation carries the status the closed form of the matching gives it |
| A11y.Classify | packages/core/src/a11y.ts:261-270 | accepted and mild findings are set aside, every other is pending at its place |
| A11y.HoldAgainst | packages/core/src/a11y.ts:271-295 | writing statuses back in place gives each finding the status of its violation and touches no other |
| A11y.DecideA11y | packages/core/src/a11y.ts:244-329 | against every kind of baseline: a finding is accepted, for its reason, by the first entry that covers it, reported when no failing impact is its own, and else told by the baseline; the counts are how many findings have each status; the check fails if and only if some finding is new, is unverified if and only if none is and some could not be compared, and passes otherwise, as the base side always does |
| A11y.AuditsJoin | packages/core/src/a11y.ts:207-228 | the findings of two lists of audits are those of the one and then of the other |
| A11y.AuditSplits | packages/core/src/a11y.ts:207-228 | an audit's are those of its violations, one after another |
| A11y.ElementsAreFindings | packages/core/src/a11y.ts:207-228 | and a violation is one finding for each of its elements, in order, with what audit, violation and element say |
| A11y.RecordBase | packages/core/src/a11y.ts:299-303 | the base side turns every new finding into an existing one and the counts with them |
| A11y.TallyFinds | packages/core/src/a11y.ts:297-298 | a count is positive exactly when some finding carries its status |
| A11y.CountsAreTheMatching | packages/core/src/a11y.ts:271-298 | the counts reported are the matching's: existing is what the best matching excuses, new is every other audited pending violation |
| A11y.HeadAgainstItselfPasses | packages/core/src/a11y.ts:232-243 | audits held against themselves never fail and leave nothing uncompared, whatever the profile |
| A11y.SameBaseSameStatuses | packages/core/src/a11y.ts:246-295 | bases with the same audited keys and the same violations give every finding the same status |
| A11y.LargerBaseFailsNoMore | packages/core/src/a11y.ts:246-298 | a larger base that audited nothing more never reports more new findings |
| A11y.NewAmongCopies | packages/core/src/a11y.ts:276-294 | of any number of violations alike, those beyond what the base has in their place are new where it audited their page, and none where it did not |
| A11y.LargerBaseNeverFailsMoreIff | packages/core/src/a11y.ts:246-298 | a larger base reports no more new findings for every head and profile if and only if it audited nothing the smaller did not |
| A11y.NewAuditMayFailWhatWasUnverified | packages/core/src/a11y.ts:280-293 | an input that shows it: one empty audit turns an uncompared violation into a new one |
| A11yRecord.BaseAuditsOf | packages/core/src/a11y-run.ts:58-84 | entries of a wrong shape are passed over, and each finding goes to the last audit whose joined key its own parts read as, whatever types they are of |
| A11yRecord.EntriesAreRead | packages/core/src/a11y-run.ts:60-83 | entry by entry: which audits a record names, and which of its findings is put back under which audit as what |
| A11yRecord.KeyTextsDiffer | packages/core/src/a11y-run.ts:72-75 | the joined key tells audits apart, whatever a theme is called |
| A11yRecord.RebuiltIsWhatWasAudited | packages/core/src/a11y-run.ts:51-85 | audits rebuilt from a base side's record audit the same keys and hold the same violations as those it made |
| A11yRecord.RecordKeepsEveryStatus | packages/core/src/a11y-run.ts:112-142 | so every head finding gets the status it would have had against the original audits |
| A11yRecord.ReadBack | packages/core/src/a11y-run.ts:98-104 | reading a base's record and deciding with it gives the decision against the audits the base made |
| Apng.ReadParts | packages/core/src/apng.ts:34-57 | the chunk reader finds the last header and the joined pixels, or the error of the first chunk that is cut short |
| Apng.RenderedIsRead | packages/core/src/apng.ts:46-57 | reading rendered chunks gives the chunks back, wherever they start and whatever follows the end chunk |
| Apng.FrameControl | packages/core/src/apng.ts:59-69 | the control chunk's fields written at their offsets in one buffer |
| Apng.Plan | packages/core/src/apng.ts:78-89 | the canvas is the first frame's, the frames on it are kept in order, and kept and skipped are all there were; no frame, or one that is not a PNG, is an error |
| Apng.WriteFrames | packages/core/src/apng.ts:94-106 | each kept frame's control and pixels in file order with running numbers, or an error exactly when a number does not fit |
| Apng.AssembleApng | packages/core/src/apng.ts:77-109 | the whole file, the frames it holds and those it skipped, and each way it throws |
| Apng.WrittenIsRendered | packages/core/src/apng.ts:90-108 | what is assembled is the signature and one list of chunks, header and animation first, end last |
| Apng.SequenceHasNoGap | packages/core/src/apng.ts:94-106 | control and pixel chunks carry 0, 1, ..., 2n - 2 without a gap or a repeat (section 11.3.6 of the PNG specification, third edition) |
| Apng.SplitApng | packages/core/src/apng.ts:116-136 | pixels go to the frame announced last, a zero denominator counts hundredths, and each way it throws |
| Apng.SplitUndoesAssemble | packages/core/src/apng.ts:77-136 | splitting an assembled file gives exactly the kept frames in order, each as the shared header and its own pixels, shown for its delay rounded and held to 0..65535; kept and skipped are all |
| Apng.AssembleUndoesSplit | packages/core/src/apng.ts:77-136 | assembling the split frames gives the same bytes and skips none |
| ApngMeaning.PngIsRead | packages/core/src/apng.ts:34-57 | of any file of chunks the last header and all the pixels in order are read, or an error exactly when there is no header of thirteen bytes or no pixels |
| ApngMeaning.KeptAreOnTheCanvas | packages/core/src/apng.ts:77-108 | exactly the frames with the first one's header are kept, in order, each with its pixels and delay, the others counted as skipped; or what the first unreadable frame throws is thrown |
| ApngMeaning.ChunkLayout | packages/core/src/apng.ts:93-107 | a chunk is its body's length, kind, body and the checksum of both (section 5.3 of the PNG specification) |
| ApngMeaning.AnimationSaysHowMany | packages/core/src/apng.ts:90-93 | the animation chunk, second, says how many frames there are and that they play once |
| ApngMeaning.DelayIsHeld | packages/core/src/apng.ts:64-64 | a delay is held to 0..65535 and otherwise rounded to the nearest, a half upwards |
| ApngMeaning.DelayIsRead | packages/core/src/apng.ts:125-126 | a control's delay is read to the nearest millisecond, a denominator of zero counting hundredths |
| ApngMeaning.AnimationIsTakenApart | packages/core/src/apng.ts:116-136 | of any animation its announced frames come out in order, each for its control's delay with the pixels up to the next control, under the file's last header; or an error exactly when it is not said to be animated, has no header, or has pixels too long for a chunk |
| ApngMeaning.ShortControlThrows | packages/core/src/apng.ts:124-126 | a control chunk too short to hold a delay throws, wherever it stands |
| FlowRecording.Recorder.Keep | packages/core/src/flow-recording.ts:84-96 | after any frames the recorder holds the longest run of latest frames within both bounds, its counter is their bytes, and dropped and held are all that were appended |
| FlowRecording.Recorder.BeginTake | packages/core/src/flow-recording.ts:98-102 | a capture begins exactly when the recorder has not stopped |
| FlowRecording.Recorder.EndTake | packages/core/src/flow-recording.ts:103-118 | every capture begun is kept or its failure counted, once, the stop having come meanwhile or not; the first reason stays |
| FlowRecording.LongestIsUnique | packages/core/src/flow-recording.ts:84-96 | the bounds and the appended frames alone say what is held |
| FlowRecording.Recorder.AssembleRecording | packages/core/src/flow-recording.ts:153-168 | nothing held gives no recording; otherwise each frame is shown until the next, between 1 and 5000 ms |
| FlowRecording.RecordingShowsWhatWasHeld | packages/core/src/flow-recording.ts:153-167 | a recording taken apart shows every held frame on the canvas, in order, for exactly the delay the recorder gave it |
| FlowRecording.RecordingSays | packages/core/src/flow-recording.ts:153-167 | a recording says how many frames its file shows, how many of those held it does not, how many were let go, and how long it is |
| CellWire.HostNameIsCanonical | packages/core/src/cell-wire.ts:9-15 | a host name is bounded, lower case, of name bytes only, and is left alone when read again |
| CellWire.JoinedIsName | packages/core/src/cell-wire.ts:14-14 | labels joined by dots are a host name exactly when each of them is a label |
| CellWire.ReadDnsQuestion | packages/core/src/cell-wire.ts:32-60 | the cursor loop reads the labels up to the zero byte, and refuses everything that is not one standard query |
| CellWire.QuestionIsRead | packages/core/src/cell-wire.ts:32-60 | reading undoes writing for every query of sections 4.1.1 and 4.1.2 of RFC 1035, whatever its other flags, counts and sections |
| CellWire.DnsReply | packages/core/src/cell-wire.ts:67-79 | the reply's header written at its offsets, the question, and the address record where there is one |
| CellWire.ReplyIsNoQuestion | packages/core/src/cell-wire.ts:36-36 | no reply is ever read as a question |
| CellWire.ReplyCarriesQuestion | packages/core/src/cell-wire.ts:67-79 | with its response bit cleared a reply reads as the very question it answers |
| CellMeaning.HostNameIsRead | packages/core/src/cell-wire.ts:9-15 | a name is read exactly of the texts that are it, in any case and with or without a dot at the end, when it is labels joined by dots and at most 253 bytes |
| CellMeaning.QuestionIsAsked | packages/core/src/cell-wire.ts:31-60 | a message is read as a question exactly when it is a standard query with one question, and then as what that question asks |
| CellMeaning.ReplyIsLaidOut | packages/core/src/cell-wire.ts:62-79 | a reply's every byte, by sections 4.1.1 and 4.1.3 of RFC 1035 |
| CellPeek.Cursor.Take | packages/core/src/cell-wire.ts:99-106 | the cursor gives the next bytes and moves past them, or refuses and stays; it never leaves the record |
| CellPeek.TlsServerName | packages/core/src/cell-wire.ts:91-133 | what the first record of a connection says: wait, no name, or the first server name within the extensions |
| CellPeek.ServerNameIsStable | packages/core/src/cell-wire.ts:91-133 | an answer once read is the same for every extension of the bytes |
| CellPeek.HelloIsRead | packages/core/src/cell-wire.ts:91-133 | reading undoes writing for every client hello (section 4.1.2 of RFC 8446) with a server_name (section 3 of RFC 6066) among any other extensions |
| CellPeek.HttpHost | packages/core/src/cell-wire.ts:139-149 | the host of the first line that is a `Host` line, in a head that ends within the bound |
| CellPeek.RequestHostIsStable | packages/core/src/cell-wire.ts:135-149 | an answer once read is the same for every extension of the bytes |
| CellPeek.RequestIsRead | packages/core/src/cell-wire.ts:139-149 | of every request head of lines within the bound, the host of the first line that is a `Host` line is read, whatever the body, and none without one |
| CellPeek.HostLineIsRead | packages/core/src/cell-wire.ts:144-144 | in any case and with any space around it, a `Host` line gives the value it was written with |
| CellPeek.PortIsCut | packages/core/src/cell-wire.ts:146-146 | a port is cut off a host, and nothing is cut off one without |
| CellMeaning.HelloNamesExactly | packages/core/src/cell-wire.ts:98-133 | a client hello names a host exactly when it has the form of section 4.1.2 of RFC 8446 up to its first server_name extension, and that one's first entry is the host's name |
| CellMeaning.StreamNamesExactly | packages/core/src/cell-wire.ts:91-98 | a stream names a host exactly when its first record is a whole handshake record within the bound and such a hello, and is waited for exactly while it may become one |
| CellMeaning.RequestNames | packages/core/src/cell-wire.ts:135-149 | a request whose head ends within 8192 bytes names the host of its first `Host` line less its port, and none without such a line |
| CellMeaning.OthersNameNone | packages/core/src/cell-wire.ts:140-142 | any other says nothing until it has come to 8192 bytes, and then names none |
| CellMeaning.HostLineSays | packages/core/src/cell-wire.ts:144-145 | a line names a host exactly when its field is `Host` in any case, and then the value with the white space around it taken off |
| CellMeaning.OnlyAPortIsCut | packages/core/src/cell-wire.ts:146-146 | a port is cut off exactly where there is one |
| CellMeaning.LinesAreJoined | packages/core/src/cell-wire.ts:143-143 | a head's lines are its text cut at every line end |
| CellStreams.Carrier.OnClientData | packages/core/src/cell-shim.ts:184-212 | the gate is asked once, about what the client's bytes so far say; what comes meanwhile is held, and after a yes goes on in order |
| CellStreams.Carrier.OnGateData | packages/core/src/cell-shim.ts:193-212 | nothing is passed on before the gate's line is a yes; then all the client sent, and to the client all that follows the line |
| CellStreams.Carry | packages/core/src/cell-shim.ts:178-212 | however both streams are cut and whatever fails, the gate is asked about the host the bytes name, the other side gets a beginning of what the client sent and nothing before a yes, and while the connection stands after that, all of it |
| CellStreams.PeeksAreCarried | packages/core/src/cell-shim.ts:213-214 | both peeks the listeners use meet what the carrying needs |
| CellRelay.LineIsFinal | packages/core/src/cell-gate.ts:264-276 | more bytes change nothing that was decided of a request line |
| CellRelay.ReadRequest | packages/core/src/cell-gate.ts:261-287 | however a stream is cut, the same request line is read, dropped or waited for |
| CellRelay.GateConnection.OnData | packages/core/src/cell-gate.ts:264-287 | bytes are read for the line, forwarded once joined, and have no listener in between |
| CellRelay.GateConnection.OnConnect | packages/core/src/cell-gate.ts:251-261 | a dial that connects is answered with yes, and what came with the line's last read goes on |
| CellRelay.CourseHolds | packages/core/src/cell-gate.ts:172-287 | after anything that may happen to a connection: the request handled is the line of what arrived, and what followed the line is the rest read with it, then what was missed, then what was forwarded |
| CellRelay.AnsweredAsHandled | packages/core/src/cell-gate.ts:193-202 | what arrived alone says what is answered: nothing before a whole line; a no to a refusal, a yes to an allowed lookup, and either ends the connection; nothing to what is no request |
| CellRelay.DialIsAnswered | packages/core/src/cell-gate.ts:239-261 | a dial is answered as it ends, unless who asked is gone: a yes and then what the dialled side sends, or a no and nothing else |
| CellRelay.DialEndsOnlySo | packages/core/src/cell-gate.ts:239-261 | until it connects or fails it is under way, whoever goes meanwhile, and nothing was answered or passed on |
| CellRelay.AllIsForwardedExactlyWhen | packages/core/src/cell-gate.ts:238-285 | once joined, all that followed the line was forwarded if and only if nothing arrived while the gate dialled; what did is exactly what is missing |
| CellRelay.LateBytesAreLost | packages/core/src/cell-gate.ts:274-285 | an input that shows it: the same bytes in one read are forwarded, in two they are lost |
| CellLink.NothingWhileDialling | packages/core/src/cell-shim.ts:193-206 | while the gate dials for a shim, nothing is on its way to it |
| CellLink.UpIsKept | packages/core/src/cell-shim.ts:193-208 | what the gate has forwarded and what is in flight to it is what the shim carried, and the gate missed nothing |
| CellLink.DownIsKept | packages/core/src/cell-shim.ts:193-208 | what the shim has passed on and what is in flight to it is what the dialled side sent since the two were joined |
| CellLink.CarryThrough | packages/core/src/cell-shim.ts:178-212 | whatever happens at either end or between in whatever order, the dialled side gets a beginning of what the client sent; and while both ends stand after the yes, all either sent was passed on to the other or is on its way |
| CellGate.WildcardIsOneLabel | packages/core/src/egress.ts:26-31 | a wildcard matches exactly the names one label longer |
| CellGate.MatchesAnyIsNamed | packages/core/src/egress.ts:18-38 | a host is declared exactly when it stands among the declared ones letter for letter, starless, or is one dotless label, a dot and what a declared star stands before |
| CellGate.DialledAs | packages/core/src/cell-gate.ts:141-150 | a host is dialled as the first mapping of the very host says, else as the first mapping of a pattern that covers it says, else as itself |
| CellGate.StubAnswersOn | packages/core/src/cell-gate.ts:159-160 | a stub answers on 80, on 443, and on the ports declared for a pattern that covers it |
| CellGate.DialsExactlyWhereItMay | packages/core/src/cell-gate.ts:193-238 | the gate dials if and only if the host is named by the declarations, letter for letter or as one label before a star's, and the port is one it may be dialled on: the app's published port, 80, 443 and its declared ports for a mapped stub, a carried port for any other; under the name and at the port the run gave it |
| CellGate.RecordedAsAsked | packages/core/src/cell-gate.ts:184-237 | a lookup is allowed if and only if the declarations name the host so, a malformed request is dropped, and whatever is recorded is recorded under the host and port asked for and the protocol known for them |
| CellGate.NotedKeeps | packages/core/src/cell-gate.ts:148-160 | one decision more keeps the record within its cap, each destination counted as often as decided on, and `capped` exactly when one was dropped |
| CellGate.Gate.Handle | packages/core/src/cell-gate.ts:172-215 | a request is decided, recorded and counted, and a dial is counted as one |
| CellGate.Serve | packages/core/src/cell-gate.ts:145-146 | the record of any sequence of requests is their decisions noted one after another, and true of them |
| CellGate.FlagsAreRightExactlyWhen | packages/core/src/cell-gate.ts:148-237 | the flags of the record left by every sequence of requests are right if and only if the host named "unknown" is never dialled under a nameless request's key, or the record holds nothing |
| CellGate.DeclaredIsDialled | packages/core/src/cell-gate.ts:134-135 | with the gate's own port 80 carried, and the app's where the app is so named, it is never dialled so if and only if no declaration names it |
| CellGate.RecordIsTrue | packages/core/src/cell-gate.ts:145-160 | the record never exceeds its cap, each entry's flag is right for every request it counts, and until it is cut its counts are all decisions and its declared counts all dials |
| CellGate.DialReply.On | packages/core/src/cell-gate.ts:216-238 | a dialled request gets one reply, that of the first thing to become of its dial |
| JsonText.QuotedIsRead | packages/core/src/cache.ts:22-22 | a quoted string says what was quoted, lone surrogates and all, whatever follows it |
| JsonText.PrintedIsRead | packages/core/src/cache.ts:14-23 | reading undoes printing for every JSON value, in place and whatever follows it |
| JsonText.EscapesApart | packages/core/src/cache.ts:22-22 | a string is escaped unit by unit, but that the halves of a pair stand together |
| JsonText.UnitEscapes | packages/core/src/cache.ts:22-22 | what becomes of each unit: the short escapes, the other controls and lone halves as `\u` and four digits, all else as it is (section 7 of RFC 8259) |
| JsonText.PairStands | packages/core/src/cache.ts:22-22 | a pair stands as it is |
| JsonText.DashedHasNoTwoDashes | packages/action/src/advisory-replies.ts:35-38 | after the escape no two dashes stand in a row |
| JsonText.DashedPrint | packages/action/src/advisory-replies.ts:35-38 | the escape touches the inside of strings and nothing else of a printed value |
| StableJson.OneOrder | packages/core/src/cache.ts:18-18 | there is one way to put a set of keys in order by code unit |
| StableJson.LessIsByUnit | packages/core/src/cache.ts:18-18 | keys are ordered by their first differing unit, a prefix before what it begins |
| StableJson.ObjectMeans | packages/core/src/cache.ts:16-20 | an object's text has a member for each field that is not undefined and no other, nulls included, by rising keys |
| StableJson.ListMeans | packages/core/src/cache.ts:15-21 | a list's text has an item for each item, and what is nothing stands as null |
| StableJson.MeaningIsPrinted | packages/core/src/cache.ts:14-23 | the canonical text is the plain printing of the value with undefined dropped and keys in order |
| StableJson.TextSaysMeaning | packages/core/src/cache.ts:9-13 | what a value means can be read back from its canonical text |
| StableJson.SameTextIsSameMeaning | packages/core/src/cache.ts:9-23 | two texts are equal if and only if the values are the same up to key order, undefined fields, and nothing written as undefined, null or a non-finite number |
| StableJson.SameKeyIsSameParts | packages/core/src/cache.ts:29-56 | two cache keys have one pre-image if and only if all six parts agree |
| StableJson.SameProfileTextIsSameProfile | packages/core/src/cache.ts:87-94 | two profile fingerprints have one pre-image if and only if the profiles mean the same, containment markers included |
| StableJson.MarkersStandFirst | packages/core/src/cache.ts:87-94 | the pre-image opens with the command marker, and before it the client's where the profile has a client |
| Judge.DetectRegressions | packages/core/src/judge.ts:46-63 | a regression for each head entry that failed and whose last base entry was proven, in head order |
| Judge.JudgeRun | packages/core/src/judge.ts:70-136 | a regression for each head entry that lost what the base's last proved; a criterion for each head entry and then one for each base entry whose id the head did not execute, waived or not, in order, each with its outcome, flag and reason told from the two sides; and the verdict told from them too |
| Judge.LosingACriterionNeverPasses | packages/core/src/judge.ts:114-151 | a base entry whose id no head entry has is judged unverified, and the run does not pass |
| Judge.DowngradeNeverRaises | packages/core/src/judge.ts:140-151 | taking any outcomes down never raises the run verdict |
| Judge.PassedIsAllProven | packages/core/src/judge.ts:140-151 | a run passes if and only if it was not refused, judged something and proved all it judged, whatever was waived or regressed |
| Judge.FlagIsProvenThenFailed | packages/core/src/judge.ts:70-104 | the flag is up exactly on ids that some head entry has failed and the base's last has proven, waived or not |
| Judge.ProvenIsProvenAtHead | packages/core/src/judge.ts:65-104 | nothing waived, regressed or unproven at the head is judged proven |
| Verifier.ConsumeVerifierFindings | packages/core/src/judge.ts:326-362 | each proven criterion is held to the first finding about it alone: failed if and only if that is a contradiction and cites, white space apart, evidence of the first claim about it, or the diff where there is any; unverified if there is any other; every other criterion stays as it was |
| Verifier.TrimBares | packages/core/src/judge.ts:348-348 | what is trimmed off is white space, and the rest is left whole |
| Verifier.RunVerifier | packages/core/src/judge.ts:396-464 | for every runner, batch size and unreadable setting, each criterion comes to what the turns that were asked about it make of it |
| Verifier.BatchesAreCut | packages/core/src/judge.ts:419-420 | the claims are cut into batches of the size asked for, in order, the last of what is left |
| Verifier.FirstAgainstDecides | packages/core/src/judge.ts:417-463 | what becomes of a proven criterion is what the first turn makes of it that was asked about it and did not clear it |
| Verifier.UnusableSizeProvesNothing | packages/core/src/judge.ts:403-415 | a batch size that cannot be read, or is not above zero, leaves nothing proven that was to be asked about |
| Verifier.TurnComesTo | packages/core/src/judge.ts:419-461 | what one turn makes of each criterion: nothing of those it was not asked about, unverified for why there was no answer, or what its findings say |
| Verifier.StaysProvenIffCleared | packages/core/src/judge.ts:376-395 | a proven criterion stays proven, and then as it was, if and only if every turn asked about it answered readably with no finding against it |
| Verifier.BatchSizeDoesNotMatter | packages/core/src/judge.ts:376-395 | a model that judges each claim on its own gives the same verdicts in batches of every size |
| JudgeExecuted.ClaimsAreTheProven | packages/core/src/judge.ts:298-329 | exactly the proven criteria with a text are asked about, each id always in the same words |
| JudgeExecuted.Prepare | packages/core/src/judge.ts:298-324 | a proven criterion without a text is left unverified and every other as it is; those proven still are put to the model in order, each in its own words with the evidence saved for it |
| JudgeExecuted.JudgeRanResult | packages/core/src/judge.ts:629-659 | the judged criteria and verdict of an executed result |
| JudgeExecuted.JudgingNeverRaises | packages/core/src/judge.ts:629-659 | whatever the verifier answers the verdict is no better than without it, and a refused run stays refused |
| JudgeExecuted.PassedIsAllProvenStill | packages/core/src/judge.ts:629-659 | a judged run passes if and only if it was not refused and everything it judged is proven still, there being something |
| JudgeExecuted.ProvenWasCleared | packages/core/src/judge.ts:640-659 | what is proven in the end was proven at the head, unwaived, has a text, was asked about, and was cleared by every turn that was |
| JudgeExecuted.EveryBatchSizeJudgesAlike | packages/core/src/judge.ts:640-659 | with a model that judges each claim alone, criteria and verdict are the same for every batch size |
| JudgeExecuted.FlagIsExecutedFact | packages/core/src/judge.ts:499-519 | the regression flag is up exactly on what the executed result shows going from proven to failed, ids named twice included, whatever the verifier answered |
| JudgeExecuted.NoRegressionSays | packages/core/src/judge.ts:513-519 | without a regression the flag is down exactly where the criterion failed, by its check and by the base's, and else there is none |
| MainFindings.NothingFoundIsNothingThere | packages/action/src/main-findings.ts:213-226 | where the run listed no open issue and finds none closed by hand, there is none at all |
| MainFindings.StepKeeps | packages/action/src/main-findings.ts:283-352 | every API call of a run keeps: one own issue a fingerprint, and no issue standing open that the run would file another one beside |
| MainFindings.EventKeeps | packages/action/src/main-findings.ts:39-42 | so does a death, and everything people do but reopening what the run under way would file an issue for |
| MainFindings.PermittedNeverOverlooks | packages/action/src/main-findings.ts:213-226 | over a history of such events no search overlooks an issue that stands open |
| MainFindings.OneIssuePerFinding | packages/action/src/main-findings.ts:31-52 | over any history in which no search does, at most one own issue carries each fingerprint, and no run files more than ten |
| MainFindings.OverlookedIsFiledTwice | packages/action/src/main-findings.ts:219-226 | at each search, the run's next two steps leave one issue a finding if and only if the search overlooks none |
| MainFindings.SecondIssueExactlyWhen | packages/action/src/main-findings.ts:213-343 | for an issue reopened at any moment of a run left to itself otherwise, the run ends with one issue a finding if and only if it would not file for that issue's finding |
| MainFindings.ReopenedWhileFiling | packages/action/src/main-findings.ts:307-343 | an input that shows it: an issue reopened while the run files the finding before its own |
| MainFindings.TheirsAreLeftAlone | packages/action/src/main-findings.ts:39-42 | a run changes no issue someone else filed, whatever marker it carries |
| MainFindings.NoIssueIsLost | packages/action/src/main-findings.ts:243-249 | over any history of runs, deaths, closings, others' issues and reopenings but of retired issues or of one about to be, every own issue that stands open is one the next run lists |
| MainFindings.NoDeathLosesAnIssue | packages/action/src/main-findings.ts:243-249 | so no death loses an issue where nobody reopens one |
| MainFindings.ReopeningLosesExactlyWhen | packages/action/src/main-findings.ts:243-249 | a reopening loses an issue, there and then or at the run's next step, if and only if its markers are gone or about to go |
| MainFindingsRuns.RunLeavesEach | packages/action/src/main-findings.ts:243-352 | an undisturbed run closes and retires exactly what recovered, the environment's issue where it is up included, reopens exactly what a person closed and it found again, and leaves every other issue as it was |
| MainFindingsRuns.RunFilesInOrder | packages/action/src/main-findings.ts:251-343 | it files an open, marked issue each for the first ten of its findings that have none, in order, and no other; where nothing ran, for the environment alone |
| MainFindings.RunFilesTen | packages/action/src/main-findings.ts:307-343 | an undisturbed run leaves ten fewer of its standing findings without an issue, or none |
| MainFindings.EveryStandingFindingIsFiled | packages/action/src/main-findings.ts:51-56 | after k runs, 10k fewer of the findings that stand are without an issue, or none |
| MainFindings.TenARunIsEnough | packages/action/src/main-findings.ts:51-56 | one run for every ten standing findings files them all |
| AdvisoryReplies.NoEarlyEnd | packages/action/src/advisory-replies.ts:35-44 | data without two dashes in a row does not end its comment before its own end |
| AdvisoryReplies.EmbeddedUndoesEmbed | packages/action/src/advisory-replies.ts:35-50 | reading undoes embedding for every value, whatever stands before and after the data |
| AdvisoryReplies.RecordReadsBack | packages/action/src/advisory-replies.ts:105-126 | a record that was written reads back as the same comment, dismissals and promotions, whatever the comment goes on to say |
| AdvisoryReplies.RecordIsReadWhole | packages/action/src/advisory-replies.ts:96-115 | a record is read with all it says or not at all: it needs its comment's number, and neither list may hold anything but dismissals or promotions |
| AdvisoryReplies.EntryIsReadWhole | packages/action/src/advisory-replies.ts:99-104 | an entry is read exactly when it has the text, or number, each of its keys needs |
| AdvisorySweeps.StepKeeps | packages/action/src/advisory-replies.ts:233-290 | every step of a sweep keeps: one own issue a finding, one record a reply, and what the sweep holds is what the records say with the one it is about to write |
| AdvisorySweeps.NothingIsDoneTwice | packages/action/src/advisory-replies.ts:219-224 | however sweeps are cut short, at most one issue is filed for a finding and one record written for a reply, and recorded promotions are true |
| AdvisorySweeps.SweepDoes | packages/action/src/advisory-replies.ts:225-296 | an undisturbed sweep answers every reply that counts with one record and writes nothing else; it dismisses exactly the posted findings asked for, as posted, promotes exactly those asked for that are posted or filed already, files only for the posted that no own issue names, and leaves what was dismissed or promoted before as it was |
| AdvisorySweeps.StrangersChangeNothing | packages/action/src/advisory-replies.ts:237-238 | only who may reply is listened to: over any history, with everybody else's comments saying nothing, sweeps come to the same issues, records and sets |
| AdvisorySweeps.DismissedIsRecorded | packages/action/src/advisory-replies.ts:199-217 | a finding is dismissed as the last entry of the last own record that dismisses it has it |
| AdvisorySweeps.PromotedIsRecorded | packages/action/src/advisory-replies.ts:199-217 | and promoted to what the last entry of the last own record that promotes it says |
| AdvisorySweeps.PostedIsTheLastEvidence | packages/action/src/advisory-replies.ts:227-229 | posted is what the last evidence of qare's own lists, of findings listed twice the last |
| AdvisorySweeps.CompletedSweepIsFinal | packages/action/src/advisory-replies.ts:219-224 | a completed sweep makes the next answer nothing, write nothing and report the same sets |
| Flow.Run.Ask | packages/core/src/flow.ts:384-400 | whatever the page does a frame starts at every tick of the timer while one may and none after, and an abort while the flow runs ends the recording |
| Flow.Run.Screenshot | packages/core/src/flow.ts:357-378 | a screenshot is started with every concealed element covered, or withheld and none is |
| Flow.Run.Conceal | packages/core/src/flow.ts:401-421 | before a secret is typed its element is covered, or no picture is taken from here on |
| Flow.Run.DriveAction | packages/core/src/flow.ts:488-564 | every code and secret is on the trace from its attempt on; what comes of an action is what the page answers: to its one call, to no call where a screenshot is withheld, to the last typing of a code whose window may have passed; and how often it is asked, the snapshot of an assertion that held included |
| Flow.LastAnswerCounts | packages/core/src/flow.ts:488-564 | of the answers an action gets which one says what comes of it |
| Flow.Run.RepairLocator | packages/core/src/flow.ts:571-605 | an action on a role element with a path that threw, no assertion, has its second chance if and only if the page gives a snapshot and the element is found in it: a copy with the path found is driven next, and the flow goes on if and only if that goes well; in every other case nothing more is driven |
| Flow.Run.AfterFailure | packages/core/src/flow.ts:671-713 | a decided assertion fails the check, with its snapshot and a frame before the screenshot; any other action has its second chance, and without one that works leaves the check unverified, pictured alike |
| Flow.Run.AuditAt | packages/core/src/flow.ts:622-657 | an audit is made once for everything done to the page after the one before: cell after cell until one cannot be made, which ends the auditing; each is pictured unless its picture might show a secret |
| Flow.Run.RunFlowCheck | packages/core/src/flow.ts:285-792 | what was driven is what the page was asked, one thing after another from the first, and came to what it answered; a flow not aborted passes if and only if every action went through as planned or as a once-repaired copy, fails if and only if an assertion driven as written raised a decided error, and is unverified if and only if an action threw that had no second chance, or threw again; it ends in a screenshot where one may be taken, and its audits are made at the points where the page settled; one that starts aborted or cannot run drives nothing |
| Flow.NoPictureShowsASecret | packages/core/src/flow.ts:334-378 | no picture starts once a code was typed, nor after a secret on a driver that cannot conceal; where it can, every later picture covers the element |
| CommitPaging.ListCommitsBetween | packages/action/src/github.ts:208-251 | the newest of the commits the pages hold, newest first, which are the newest of all if and only if the pages suffice; three pages at most; `truncated` exactly when the range is longer than what is returned |
| CommitPaging.APageAlwaysSuffices | packages/action/src/github.ts:199-207 | up to a limit of 100 they always suffice |
| CommitPaging.LongRangesFallShort | packages/action/src/github.ts:241-247 | beyond, how many commits a long range gives and that they are not what was asked for |

## Left out

- Branch publishing: blobs, trees and commit messages are the maps from path to content they stand for.
- Accessibility decisions: help texts, roles, names, screenshots and the wording of reasons; the keys of violations are tuples where the source joins strings, numbers are the texts they print as, and a path is not empty when there is one. Redaction is taken as the identity, and a page's address as what `pageOf` made of it.
- Animated PNG: the checksum of a chunk is any function to four bytes; png.ts is not part of this model.
- Recording: the clock is a parameter, the race between a frame and its timeout is its outcome, and that one capture runs at a time is its caller's to see to.
- CellWire.HostNameIsCanonical: names are Latin-1 bytes, as the wire formats give them; a name in a gate request that lower-cases into ASCII from outside Latin-1 is not modelled.
- The gate: declarations and requested hosts come normalised, and a refusal's wording is left out.
- CellStreams.Carry: a reply line of the gate's is a yes by any given rule, and nothing arrives from a side that is paused but into what is held.
- CellLink.CarryThrough: the request and reply lines are any that hold no line end and read as what they are; a side's half-closing is its going.
- JSON: a finite number is the decimal text it prints as, so 0 and -0 are one; the reader takes any run of number characters as a number and allows no white space, which printed text never has. Functions, symbols, sparse arrays and values with their own `toJSON` are not modelled.
- Cache keys: digests are not modelled; the claims are about the text that is digested.
- The verifier: token usage, prompts and the wording of an unreadable batch size; an answer other than a list of findings is one way of not answering. Per-app summaries, evidence lists and redaction of the judged result are left out.
- Issues on the main branch: comments, titles, labels, blame, recorded passes and dry runs. Runs are one after another and a search sees earlier writes.
- Advisory replies: what a reply comment says. Sweeps are one after another, a search sees earlier writes, and comments are neither edited nor deleted; a record of qare's own is what it says, as `AdvisoryReplies.RecordReadsBack` has it of the ones it writes.
- The flow interpreter: file writing, logs, masks, the contents of snapshots and the trace file; the identity rule of locator.ts is an arbitrary answer.
- CommitPaging.ListCommitsBetween: the listing is taken to report its total, and the flags saying which revision is ahead are left out.
- Docker, sockets, the file system, Playwright, Electron and HTTP requests: outcomes of steps or streams of bytes.
- Markdown rendering, command-line flags, profile and job validation, identity selection, artefacts and issue criteria: plumbing or one-branch facts that would only add easy members.
- `summarizeEgress`, `planFingerprint` and the file cache: nothing beyond what the members above state of their parts.
