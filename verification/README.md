# TaniDVR, modelled and proved

TaniDVR reads the media stream of a DVR, cuts it into DHAV or raw H.264 frames, corrects the
timestamps, and writes Matroska.  This project models that path in Dafny, together with the
circular FIFO and the tunnel that carry the stream between processes, and with the message
protocol whose NOP requests fence off unanswered queries.

To verify it: `dafny verify dfyconfig.toml`, with Dafny 4.11.

## How it is laid out

| file | what it holds |
|---|---|
| `Bytes.dfy` | octets, the codecs of `bintools.h`, 16- and 64-bit wrap-around, concatenation |
| `StreamParsing.dfy` | cutting a stream by a rule that looks at the head of a queue; what holds of every such rule |
| `DhavFraming.dfy`, `DhavStream.dfy` | the rule of the DHAV deframer, one call of it, and the properties of whole streams |
| `DhavDrain.dfy` | call after call: each is a stretch of the parse; when a drain ends, and when a whole run does, packing included |
| `RawFraming.dfy` | the same for raw H.264 |
| `StreamQueue.dfy` | the code of both on the in-place queue, and the drain loops |
| `TimestampCorrector.dfy` | the timestamp corrector: steps, invariant over runs, machine arithmetic, the code |
| `DeviceClock.dfy`, `CorrectorRuns.dfy` | what it makes of the device's clock, exactly which jitter it smooths away; and runs that show what it may come to |
| `Subfields.dfy`, `FrameInfo.dfy` | extended headers, and what is collected from a frame |
| `DhavLayout.dfy` | DHAV frames as a device writes them, and that the program reads back what was written |
| `Ebml.dfy` | a reader for EBML and Matroska that knows nothing of the writer |
| `MkvFormat.dfy`, `MkvWriter.dfy` | the layout written, its reading back, and the code that patches the template |
| `Conversion.dfy` | frame after frame into Matroska, and what the reader finds there |
| `Dhav2Mkv.dfy` | the loops of `dhav2mkv`: identification, preload, read, drain, convert |
| `Recording.dfy` | from a device to the file: what a recording comes to be, in terms of what the device meant |
| `Descriptors.dfy`, `ByteFifo.dfy`, `Tunnel.dfy` | non-blocking descriptors, the circular FIFO, the tunnel and the restart loop |
| `Messages.dfy`, `Protocol.dfy` | messages and the NOP fence as functions of the input, and the code on a connection |

Code that updates a structure step by step is a class or a loop proved equal to a function of the
state before; the theorems are about those functions.  The function of the deframer drops one octet
at a time and knows no offsets, no packing and no inner skip loop; that of the FIFO is a plain byte
queue; and Matroska output is judged only through the reader in `Ebml.dfy`.  In `Recording.dfy` the
whole way is one statement: frames are written field by field as a device does, and the picture
size, bodies, flags and times they mean are found in the file that is read back.

Descriptors and the peer are scripts: lists of what each read, write, poll or message brings.  A
statement for every script covers every run, with any short transfers, EAGAIN and failures.

## Where the code does not do what its comments say

* A DHAV header whose length field is 0, right behind a trailer that also carries length 0, is
  accepted as a frame of no octets; the drain loop then never ends.
  `DhavDrain.DrainDivergesIffStuck` states exactly when, on the octets: the parse comes to such a
  header (`MeetsStuck`).  `DhavDrain.ZeroHeaderExample` gives a stream, and
  `DhavStream.NoZeroHeaderSuffices` a condition that needs no parse.  For lengths below 8 the trailer
  is looked for in front of the frame, so the octets lying there are part of the model;
  `DhavFraming.BackMattersOnlyForZeroHeaders` shows when they matter.  Packing changes what lies
  there, so over a run the exact condition is `RunsStuck`; `DhavDrain.HarmlessMemory` shows that
  packing cannot bring it about unless the memory in front of the array ends like a zero trailer
  begins.
* "here, j == 2 always" (`src/mctools.c:1104`) is not so.  `TimestampCorrector.OneFrameCorrection`:
  j is 2 exactly when the slow drift is positive, and -2 exactly when it is negative; the frame that
  is added brings the accumulators closer exactly in the first case, and the clocks exactly when the
  drift is more than half a period.  `CorrectorRuns.SlowDriftCorrectsTheWrongWay` is a run that
  gets there.  This is why the bound of `TimestampCorrector.DriftBounded` is five periods on one
  side and four on the other; `CorrectorRuns.NearlyFivePeriods` is a run that reaches 198 of the
  200 ms at 25 Hz.
* The corrected timestamps are not monotone: six frames with one stamp take the output clock through
  0, 40, 80, 120, 160 and 0 ms (`CorrectorRuns.SameStampsGoBack`).
  `TimestampCorrector.MonotoneUnlessGoesBack` says when they go back, and
  `Conversion.ClusterTimesGoBack` carries that to the timestamps in the file.
* The unsigned difference of the clocks in line 1052 of `src/mctools.c` wraps exactly when the
  drift is negative (`TimestampCorrector.DifferenceWrapsIffNegative`), as it is at the second of two
  frames with one stamp (`CorrectorRuns.DifferenceWraps`); the conversion to `int64_t` recovers it.
* A well-formed frame of 12 octets has no room for its length behind the opening mark; the deframer
  reads that field out of the octets behind the frame.  `DhavStream.WholeIffLengthThere` says that
  it is accepted exactly if its length is repeated there, `DhavStream.AllComeOutIffClosed` that a
  list of frames is recovered exactly if this holds of each, and `DhavStream.ShortFrameDropped`
  gives such a frame that is dropped.
* Lines 1031-1043 of `src/mctools.c` cannot be reached, since 30 > 5; in `TsProc.Decide` the branch
  is `assert false`.
* The flag octet of an I-frame's block is 0x01 (`src/mctools.c:1314`).  In a SimpleBlock that is the
  discardable bit; a keyframe is 0x80 (section 10.2 of RFC 9559).  So no frame is ever marked as a
  keyframe; the model keeps the octet as it is.
* The comments in `src/bufftools.c:50-53` and `112-115` promise the total of octets moved, and that
  none were moved when the result is negative.  `ByteFifo.FillCountIsTotal` and
  `ByteFifo.EmptyCountIsTotal` say exactly when that holds, and `ByteFifo.CountsAreNotTotal` gives
  one transfer of each kind where it does not.  The test at `src/bufftools.c:176` comes
  before the subtraction and never succeeds there.
* Before synchronisation the raw splitter may drop the start of a start code, so chunking matters.
  `RawFraming.UnsyncedFeed` says exactly when: a chunk ends inside the first start code with at least
  eight octets queued (`CutsStart`).  `RawFraming.ChunkingMattersBeforeSync` is such a stream, and
  `RawFraming.DroppingLosesStartIffLastIsZero` says what may still be lost when nothing is known of
  the data to come.
* A single query whose answer is unexpected, or larger than the buffer, leaves the answer to its NOP
  on the connection: `Messages.AnsweredQuery` says exactly when, and `Messages.AnswerToNopStays`
  gives both cases.

## Model

| member | source | states |
|---|---|---|
| `StreamQueue.Dstf.constructor` | src/mctools.c:256-268 | a fresh queue of the given capacity holds nothing |
| `StreamQueue.Dstf.CopyDown` | src/mctools.c:167-176 | although the ranges overlap, the destination gets the old source octets, and nothing else changes |
| `StreamQueue.Dstf.Pack` | src/mctools.c:315-319 | packing moves the queued octets to the front and preserves them |
| `StreamQueue.Dstf.Append` | src/mctools.c:321-323 | the new octets follow the queued ones; the capacity is not exceeded |
| `StreamQueue.Dstf.Load` | src/mctools.c:303-324 | refuses, changing nothing, exactly when the data do not fit behind the queued ones; else they are appended, whether or not packing was needed |
| `StreamQueue.Dstf.Check` | src/mctools.c:333-369 | the checks on the array tell garbage, incomplete and whole apart as the queue alone determines, reading the trailer at the reported length even where that lies in front of the frame |
| `StreamQueue.Dstf.SkipGarbage` | src/mctools.c:371-389 | the inner skip loop has the effect of dropping one octet at a time by the full checks |
| `StreamQueue.Dstf.Emit` | src/mctools.c:397-410 | the first octets of the queue move to the output, the others stay |
| `StreamQueue.Dstf.NextDhavFrame` | src/mctools.c:326-411 | code, frame and remaining queue are those of the octet-wise specification |
| `StreamQueue.Dstf.ProcessDhav` | src/mctools.c:292-411 | one call: -1 and no change if there is no room, else the outcome of the octet-wise specification on queue and new data, also when both buffers are the same |
| `StreamQueue.Dstf.SearchNal` | src/mctools.c:413-428 | the first start code, or -1 if there is none |
| `StreamQueue.Dstf.SkipToNal` | src/mctools.c:478-494 | leaves the queue from its first start code on, or empty if it has none |
| `StreamQueue.Dstf.CutAtNextNal` | src/mctools.c:496-531 | emits up to the second start code, waits without it, refuses a short buffer |
| `StreamQueue.Dstf.ProcessRaw` | src/mctools.c:432-532 | one call of the raw splitter, as a function of queue and new data |
| `StreamQueue.DrainDhav` | src/dvrcontrol.c:726-769 | unless the octets loaded come to a zero header behind a zero trailer, the drain loop ends; it writes exactly the frames of one parse of queue and new data and leaves that parse's rest; -1 with nothing changed iff the data do not fit |
| `StreamQueue.CopyDhavStream` | src/dvrcontrol.c:713-792 | over all reads, behind what identification has queued: the frames written and the queue left are those of one parse of all reads that found room; it stops early iff some read finds none |
| `StreamQueue.DrainRaw` | src/dvrcontrol.c:726-769 | the same for raw H.264, for every queue |
| `StreamParsing.ParseAppend` | src/mctools.c:275-291 | data arriving later change no frame already recognised; parsing resumes from the rest |
| `StreamParsing.BytesAccountedFor` | src/mctools.c:371-410 | dropped octets, emitted frames and the queue make up the stream, in order |
| `StreamParsing.ItemDecidedAt` | src/mctools.c:331-410 | every octet dropped and frame emitted was decided on the suffix of the stream starting there |
| `DhavFraming.AcceptedLengths` | src/mctools.c:341-363 | an accepted length is 12 or at least 16, or it is 0 for exactly one pair of octets in front and header |
| `DhavFraming.BackMattersOnlyForZeroHeaders` | src/mctools.c:343-358 | what lies in memory in front of the frame matters iff the header reports length 0 |
| `DhavFraming.StepCodes` | src/mctools.c:385-410 | code 3 exactly when garbage was dropped down to 15 octets; 0 leaves a frame to wait for, or the queue as it was if that was short |
| `DhavFraming.ShortBuffer` | src/mctools.c:392-410 | a buffer too short for the frame gives -3 and leaves the frame in the queue; any other gives what a long one does |
| `DhavStream.DhavChunkingIrrelevant` | src/dhav2mkv.c:251-301 | any two ways of cutting the same octets give the same frames and the same queue |
| `DhavStream.ResyncLosesNothing` | src/mctools.c:331-389 | no dropped position is, whatever follows, the start of a well-formed frame with its length in octets 12 to 15, which for frames of 12 octets are those behind it |
| `DhavStream.WholeIffLengthThere` | src/mctools.c:341-363 | a well-formed frame at the head of a long enough queue is accepted iff it has 16 octets or more, or has its length repeated right behind it |
| `DhavStream.ShortFrameDropped` | src/mctools.c:341-363 | the only well-formed frame of 12 octets; with zeros behind it its first octet is dropped, with its length behind it it is emitted |
| `DhavStream.EmittedAreWellFormed` | src/mctools.c:341-364 | every emitted frame has both marks and both lengths right |
| `DhavStream.DeframingInvertsFraming` | src/mctools.c:341-410 | a list of well-formed frames with mark-free garbage between them is recovered exactly, and what is left is the end of the garbage, if each frame of 12 octets has its length repeated behind it |
| `DhavStream.AllComeOutIffClosed` | src/mctools.c:341-410 | it is recovered only then |
| `DhavStream.DrainedQueueIsShort` | src/mctools.c:333-354 | after a full drain the queue is shorter than the frame it waits for, which fits the capacity |
| `DhavStream.BoundedFramesFit` | src/mctools.c:303-313 | if no pending frame is longer than L, reads of up to capacity - L + 1 octets never yield -1 |
| `DhavDrain.StepFollowsParse` | src/mctools.c:326-411 | a call takes the next stretch of the parse; 0 or 3 means that nothing is left to take, and 1 with no frame that it stands on a zero header behind a zero trailer |
| `DhavDrain.StepMovesWindow` | src/mctools.c:371-410 | a call moves the window over the octets, and what lies in front of it moves along |
| `DhavDrain.StepKeepsStuck` | src/mctools.c:326-411 | a call neither passes a zero header behind a zero trailer nor makes one up |
| `DhavDrain.StepProgress` | src/mctools.c:385-410 | unless the octets are stuck, code 1 shortens the queue by at least 12 octets, code 3 by at least one |
| `DhavDrain.DrainDivergesIffStuck` | src/dhav2mkv.c:261-301 | calling until the code is not positive goes on for ever iff the parse of the octets comes to a zero header behind a zero trailer |
| `DhavDrain.NoZeroHeaderNeverStuck` | src/dhav2mkv.c:261-301 | a stream whose parse meets no zero header drains to an end, whatever lies in memory |
| `DhavDrain.NoZeroHeaderNeverRuns` | src/mctools.c:303-324 | nor does a whole run over such a stream get stuck, however it is cut and wherever packing happens |
| `DhavDrain.HarmlessMemory` | src/mctools.c:315-319 | if no end of the memory in front of the array is the start of a zero trailer, a run can get stuck only if the octets of the stream bring it about, however they are cut |
| `DhavStream.NoZeroHeaderSuffices` | src/mctools.c:341-363 | a stream without a zero header at any position meets none |
| `DhavDrain.ZeroHeaderExample` | src/mctools.c:341-411 | 24 octets that keep the drain going for ever |
| `RawFraming.StepsMakeDrain` | src/mctools.c:473-531 | repeated calls are one drain; each frame shortens the queue by at least four octets and leaves it synchronised |
| `RawFraming.SyncedLosesNothing` | src/mctools.c:501-531 | frames followed by the queue are the stream, and the queue stays synchronised |
| `RawFraming.FramesAreCutAtStartCodes` | src/mctools.c:501-508 | each frame has at least four octets, begins with a start code, and has none from offset 4 on |
| `RawFraming.ShortBuffer` | src/mctools.c:515-531 | a buffer too short for the frame gives -3 and leaves it in the queue; any other gives what a long one does |
| `RawFraming.CuttingInvertsJoining` | src/mctools.c:501-531 | any list of such frames is recovered from its concatenation |
| `RawFraming.SyncedFeed` | src/mctools.c:432-532 | from a synchronised queue on, chunking is irrelevant |
| `RawFraming.UnsyncedFeed` | src/mctools.c:478-494 | before that, a run keeps everything from the first start code on iff no chunk ends inside that start code with eight octets or more queued; and then its frames are those of one pass |
| `RawFraming.NoCutInsideSuffices` | src/mctools.c:478-494 | that is so if no cut falls inside the first start code |
| `RawFraming.DroppingLosesStartIffLastIsZero` | src/mctools.c:480-488 | dropping the queue can lose a start code iff its last octet is zero |
| `RawFraming.ChunkingMattersBeforeSync` | src/mctools.c:480-488 | a stream that gives a frame in one piece and none in two |
| `TimestampCorrector.TsProc.Process` | src/mctools.c:964-1129 | the code computes the step function in 64-bit arithmetic, from the first frame on, whose stamp and epoch are kept |
| `TimestampCorrector.TsProc.Decide` | src/mctools.c:991-1044 | the branches on the epochs: resynchronising, or going on to the drift checks |
| `TimestampCorrector.TsProc.CheckDrift` | src/mctools.c:1046-1063 | the branch on fast drift: whole frames, truncated towards zero |
| `TimestampCorrector.TsProc.CheckSlowDrift` | src/mctools.c:1065-1113 | statistics and the two slow-drift branches |
| `TimestampCorrector.TsProc.Finish` | src/mctools.c:1115-1128 | the last actions of every branch |
| `TimestampCorrector.StepKeepsInv` | src/mctools.c:986-1128 | every branch keeps the invariant: the part of the lead the accumulators do not see stays within two periods and changes at resets only, which clear the accumulators; the output clock goes back by at most five periods |
| `TimestampCorrector.DriftBounded` | src/mctools.c:923-1129 | after every run, for any epochs, stamps and frame rates, the device clock is between five periods behind the output clock and four ahead |
| `TimestampCorrector.MonotoneUnlessGoesBack` | src/mctools.c:1055-1103 | after the first frame the output clock goes back iff fast drift is negative or slow drift is minus three frames or more; every step is at least one period |
| `CorrectorRuns.SameStampsGoBack` | src/mctools.c:1052-1063 | six frames with one stamp take the output clock up to 160 ms and back to 0 |
| `TimestampCorrector.ConstantRate` | src/mctools.c:991-1128 | at a constant rate the output clock is a multiple of the period, and at least the frames counted since the last reset |
| `DeviceClock.TrueTime` | src/mctools.c:970-1128 | for stamps of a true clock, from any first stamp and epoch and at any frame rates, the device clock is the time since the first frame unless the epoch leaps |
| `DeviceClock.EpochLeap` | src/mctools.c:999-1044 | when the epoch goes back or more than 30 s ahead, and only then, both clocks go on by one reference period from the output clock and the accumulators start over; else the device clock goes on by the difference of stamps |
| `DeviceClock.SmoothedIff` | src/mctools.c:1046-1128 | at a constant rate the output clock goes on evenly if and only if the jitter never exceeds four periods, nor two from frame 1000 on |
| `TimestampCorrector.MachineRun` | src/mctools.c:991-1128 | for up to 10^8 frames 64-bit arithmetic and the integers agree in every state, and before every frame but the first in the drift, the slow drift and the period decided on |
| `TimestampCorrector.DifferenceWrapsIffNegative` | src/mctools.c:1052-1053 | the unsigned difference of the clocks is the drift iff the drift is not negative |
| `CorrectorRuns.DifferenceWraps` | src/mctools.c:1052-1053 | at the second of two frames with one stamp the difference is 2^64 less 40 ms |
| `TimestampCorrector.OneFrameCorrection` | src/mctools.c:1099-1111 | in that branch j is 2 iff the slow drift is positive and -2 iff it is negative; the correction reduces the slow drift iff it is positive, and the distance of the clocks iff the drift exceeds half a period |
| `CorrectorRuns.SlowDriftCorrectsTheWrongWay` | src/mctools.c:1099-1111 | a run in which j is -2 and the correction takes the clocks from 60 ms to 130 ms apart |
| `CorrectorRuns.NearlyFivePeriods` | src/mctools.c:1046-1111 | a run that leaves the device clock 198 ms, 4.95 periods, behind the output clock |
| `Subfields.ParseExtHead` | src/mctools.c:544-573 | every table slot holds the octet of the last subfield that has it, 0 if none; every index is inside the table |
| `Subfields.LastWriteMeaning` | src/mctools.c:558-572 | what "last" means, by positions instead of recursion |
| `Subfields.StripsInvert` | src/mctools.c:558-572 | any list of subfields, eight octets where the first is 0x88 and four otherwise, is found again in its concatenation |
| `Subfields.WrittenSlot` | src/mctools.c:558-572 | so a slot holds the octet of the last subfield written that sets it |
| `Subfields.StripsCover` | src/mctools.c:558-572 | the subfields make up the extended header, 8 octets for id 0x88 and 4 otherwise, only the last possibly shorter |
| `FrameInfo.McParms.constructor` | src/mctools.c:227-249 | no parameters known, first frame pending |
| `FrameInfo.McParms.CollectFrame` | src/mctools.c:581-749 | type, picture, timing and body are those of the frame; what each type leaves alone; -1 for an I-frame with rate 0 |
| `DhavLayout.ReadsBack` | src/mctools.c:596-602 | of a frame written field by field, little-endian, the program reads type, epoch, stamp, extended header, body, picture size and frame rate as written |
| `DhavLayout.IsWellFormed` | src/mctools.c:341-363 | the deframer takes it for a frame |
| `DhavLayout.CollectsFields` | src/mctools.c:581-749 | what is collected from it, for every type; -1 for an I-frame with frame rate 0 |
| `FrameInfo.AspectMeaning` | src/mctools.c:651-662 | 16:9 exactly for ratios from 1.777 up to 1.778, else 4:3 |
| `FrameInfo.NtscMeaning` | src/mctools.c:670-697 | the heights of NTSC and PAL are 480 and 576 over 1, 2, 3, 4 and 8; for others the frame rates 60, 30 and 15 mean NTSC |
| `Conversion.RefPeriodMeaning` | src/mctools.c:991 | as many periods as the frame rate says make up 1.001 s for NTSC without the exact-60 option, else 1 s, less what whole nanoseconds leave over |
| `FrameInfo.McParms.TickClock` | src/mctools.c:730-742 | the direct clock advances by the wrapped difference of stamps |
| `FrameInfo.PeriodIsDifference` | src/mctools.c:736-738 | both arms of the conditional are the true difference of two times less than 2^16 ms apart |
| `FrameInfo.ClockFollowsVideo` | src/mctools.c:625-743 | only video frames move the direct clock |
| `FrameInfo.TimestampIsElapsedTime` | src/mctools.c:727-743 | for frames whose two stamp octets, low one first, are those of a true clock, the direct timestamp is the time since the first video frame modulo 2^64 ns, whatever other frames come between |
| `MkvFormat.ReadClusterBack` | src/mctools.c:1261-1318 | the reader finds timestamp, flag octet and body of a cluster, and nothing else; all sizes nest exactly |
| `MkvFormat.TrackReads` | src/mctools.c:116-161 | the reader finds number, type, codec, picture size, display size and rate in the track entry |
| `MkvFormat.HeaderReads` | src/mctools.c:50-162 | header and clusters read as one document: unknown-size Segment, scale, software, one video track with number 1, and the clusters |
| `MkvWriter.TemplateIsLaidOut` | src/mctools.c:50-162 | the 420 octets of the template are those elements, in that order |
| `MkvWriter.WriteHeader` | src/mctools.c:1214-1256 | template and patches at fixed offsets give the header with the wanted fields, each patch exactly covering its field |
| `MkvWriter.WriteCluster` | src/mctools.c:1261-1318 | the octets written one after another are the cluster's, behind what was there |
| `MkvWriter.ConvertFrame` | src/mctools.c:1177-1323 | code and output for every case, and the output length is what was written |
| `MkvWriter.ConvertCodes` | src/mctools.c:1177-1212 | the return code, exactly, and the length of what is written |
| `Conversion.ConversionReads` | src/dhav2mkv.c:251-320 | of any list of acceptable frames the reader finds one header, declaring one video track, and one cluster of that track per video frame from the first usable I-frame on, in order, with time, flag and body; before it, and for other frames, nothing |
| `Conversion.CorrectedTimes` | src/dhav2mkv.c:281-284 | cluster i carries the corrector's clock after i + 1 video frames |
| `Conversion.ClusterTimesDriftLittle` | src/dhav2mkv.c:281-284 | so the timestamps in the file are those of the output clock, in microseconds, and the drift bound holds of them |
| `Conversion.ClusterTimesGoBack` | src/dhav2mkv.c:281-284 | the timestamps in the file go back exactly where the output clock does, and forward everywhere else |
| `Conversion.DirectTimesAreElapsed` | src/dhav2mkv.c:272-279 | without correction, and with stamp octets of a true clock, the timestamps in the file are the times since the first video frame, modulo 2^64 ns, in microseconds |
| `Dhav2Mkv.FindSeq` | src/mctools.c:178-194 | the first occurrence, or none |
| `Dhav2Mkv.Identify` | src/mctools.c:196-225 | DHAV iff both marks occur, else raw iff the vendor string does |
| `Dhav2Mkv.FormatSamples` | src/mctools.c:196-225 | what the marks and the vendor string are, octet for octet, and that the marks come first |
| `Dhav2Mkv.Preload` | src/dhav2mkv.c:220-249 | queues reads until the format is known or room is short; one more read always fits |
| `Dhav2Mkv.CorrectTimestamp` | src/mctools.c:953-962 | codes 2 and 1 leave the corrector alone, else it takes one step |
| `Dhav2Mkv.ConvertBuffered` | src/dhav2mkv.c:269-296 | collect, correct, override, convert: state and output are those of the frame |
| `Dhav2Mkv.DrainAndConvert` | src/dhav2mkv.c:259-301 | one read, unless it comes to a zero header behind a zero trailer: all frames of the parse are converted in order, the queue keeps its rest; -1 with nothing changed if the read finds no room |
| `Dhav2Mkv.ReadAndConvertAll` | src/dhav2mkv.c:251-320 | all reads: the output is the conversion of the frames of all reads that found room; it fails iff some read finds none |
| `Dhav2Mkv.ReadsFit` | src/dhav2mkv.c:220-240 | after the preload every read finds room, if no pending frame is longer than capacity minus read size plus one |
| `Dhav2Mkv.ProcessDhavStream` | src/dhav2mkv.c:161-332 | end to end: what is written reads back as the document of the frames of the input up to the first read without room, however the input is cut into reads; it fails iff there is such a read, which bounded frames exclude; and it is left as raw H.264 iff the preloaded part is identified as such |
| `Recording.RecordingSurvives` | src/dhav2mkv.c:161-332 | frames written by a device, in mark-free garbage and cut into any reads, come to a file with the size, display ratio and rate of the first picture and one block with its body and flag for each video frame from it on |
| `Recording.RecordingIsProcessable` | src/dhav2mkv.c:161-332 | the program can do what any recording whose I-frames tell rate and height asks of it, whatever lies in memory |
| `Recording.RecordingIdentified` | src/mctools.c:196-225 | a stream with such frames is identified as DHAV, whatever else is in it |
| `Recording.DirectTimes` | src/dhav2mkv.c:272-279 | without correction the times in the file are those since the first picture |
| `Recording.SmoothTimes` | src/dhav2mkv.c:281-284 | with correction and at one rate, jitter within the limits is gone: block i is at i periods |
| `Descriptors.GiveLosesNothing` | src/bufftools.c:84-91 | a read passes on the front of what the peer offers and leaves the rest |
| `ByteFifo.BtFifo.constructor` | src/bufftools.c:29-47 | a fresh FIFO holds nothing |
| `ByteFifo.BtFifo.FreeLen` | src/bufftools.c:187-191 | free and stored length add up to the size |
| `ByteFifo.BtFifo.StoredLen` | src/bufftools.c:194-198 | the number of stored octets |
| `ByteFifo.BtFifo.ReadStretch` | src/bufftools.c:81-108 | one read into a free stretch appends what was read, also round the end of the buffer |
| `ByteFifo.BtFifo.FdToFifo` | src/bufftools.c:56-109 | octets got are exactly the octets appended, for every code; read only with room, the second stretch only after the first is full |
| `ByteFifo.BtFifo.WriteStretch` | src/bufftools.c:144-182 | one write takes what was accepted from the front |
| `ByteFifo.BtFifo.FifoToFd` | src/bufftools.c:119-185 | octets sent are exactly the octets removed from the front, for every code; write only with stored data |
| `ByteFifo.FillLosesNothing` | src/bufftools.c:76-108 | loaded octets and what is still offered make up what was offered, and they fit |
| `ByteFifo.FillCountIsTotal` | src/bufftools.c:49-55 | the documented meaning of the result holds iff there is one free stretch only, or the first read does not fill the first |
| `ByteFifo.EmptyCountIsTotal` | src/bufftools.c:111-118 | likewise for writing |
| `ByteFifo.CountsAreNotTotal` | src/bufftools.c:49-55 | a read and a write that move one octet and return -1 |
| `ByteFifo.FillFails` | src/bufftools.c:81-108 | a code of -100 or below comes with a read that failed, and only with one |
| `ByteFifo.EmptyFails` | src/bufftools.c:144-182 | likewise for writing |
| `ByteFifo.FailureCodes` | src/bufftools.c:81-108 | which code a failure gives, by the stretch it is met in |
| `Tunnel.BufferedTunnelPipe` | src/dvrcontrol.c:361-441 | over any polls: sent and stored octets are those before followed by what was read; 1, 2 and 6 are the codes of the poll that ends the loop, 3 and 4 come exactly with a read or write that failed, 10 and -5 with a closed end that this poll reports, and a poll that reports nothing else of an end does end it; if all polls report both ends ready, and each read and write moves something, enough polls deliver everything that was offered |
| `Tunnel.Turn` | src/dvrcontrol.c:416-437 | one pass writes what the FIFO has and the output takes if that is ready, then reads into the room there is if the input is; -5 iff the output is closed and not ready, then 4 iff writing fails, 10 iff the input is closed and not ready, 3 iff reading fails |
| `Tunnel.Forward` | src/dvrcontrol.c:416-427 | when ready, exactly the octets that the output takes leave the front of the FIFO, and 4 comes with a failed write |
| `Tunnel.Collect` | src/dvrcontrol.c:429-437 | when ready and with room, exactly what reading into the free stretches brings is appended, and 3 comes with a failed read |
| `Tunnel.RunSession` | src/dvrcontrol.c:481-551 | one child: conservation continues across its creation and end; a child that is always ready is read to the end of what it offers |
| `Tunnel.StreamToPipe` | src/dvrcontrol.c:454-569 | over any number of children: what was delivered, followed by what the FIFO holds, is what was read from the children in turn; a flush that takes everything delivers it all; and if children and parent are always ready, all that the children offer is delivered |
| `Tunnel.Flush` | src/dvrcontrol.c:561-566 | the last write conserves the octets and empties the FIFO if the pipe takes them |
| `Messages.FencedQuery` | src/hlprotocol.c:725-763 | on replies that fit, then the answer to the NOP, the bulk query returns 0, stops right behind that answer, and has taken in all replies in order |
| `Messages.QuerySucceedsIffFenced` | src/hlprotocol.c:725-763 | it returns 0 on no other input |
| `Messages.UnfencedQuery` | src/hlprotocol.c:727-744 | on replies and then no whole message that fits it returns 2 or 3, with the replies taken in |
| `Messages.BulkQuery` | src/hlprotocol.c:694-764 | so it does with a device that answers any subset of the requests, in order |
| `Messages.VersionRequested` | src/hlprotocol.c:707-723 | the requests for the version, octet for octet |
| `Messages.VersionAnswered` | src/hlprotocol.c:725-763 | an answer to them, octet for octet, sets the version and nothing else |
| `Messages.LastReplyWins` | src/hlprotocol.c:578-646 | each string holds what the last reply that sets it said; kinds 11 and 19 fall through |
| `Messages.StringsOfKinds` | src/hlprotocol.c:578-646 | which kinds of reply set which string |
| `Messages.PrintableMeaning` | src/hlprotocol.c:36-53 | of an extracted string only tabs and octets from 32 to 127 remain as they are, others become spaces |
| `Messages.LastDiskWins` | src/hlprotocol.c:585-598 | the kind of disk is that of octet 13 of the last reply about it: 0, 1, or unknown |
| `Messages.UnansweredQuery` | src/hlprotocol.c:132-147 | a single query that was not answered returns -1 and consumes exactly the fence |
| `Messages.AnsweredQuery` | src/hlprotocol.c:116-182 | one that was answered leaves the connection behind the fence iff the reply is the expected one and fits; then its data are delivered |
| `Messages.ReplyThen` | src/hlprotocol.c:146-182 | behind a good reply, 4 if no header follows and 5 if the message is cut off |
| `Messages.NoReply` | src/hlprotocol.c:116-147 | 1 if no header comes, 2 if an unexpected message is cut off |
| `Messages.AnswerToNopStays` | src/hlprotocol.c:132-169 | an answer of one octet with no room for it, and one of another command, leave the answer to the NOP behind |
| `Messages.SpuriousSkipped` | src/hlprotocol.c:80-98 | messages in front of the expected one are discarded whole |
| `Messages.NoneExpected` | src/hlprotocol.c:80-98 | if none of the messages is expected, no header is found |
| `Messages.PendingDiscarded` | src/hlprotocol.c:934-956 | pending messages are discarded up to a message boundary |
| `Messages.PendingCutOff` | src/hlprotocol.c:934-956 | -1 if one of them is cut off |
| `Protocol.Connection.GetHeader` | src/llprotocol.c:34-45 | 32 octets and their length field, or 1 |
| `Protocol.Connection.GetExtdata` | src/llprotocol.c:58-71 | length, -2 with nothing consumed, or -1; the buffer gets the octets |
| `Protocol.Connection.DiscardExtdata` | src/llprotocol.c:75-100 | discarding in chunks consumes exactly the length, or fails |
| `Protocol.Connection.SendHeader` | src/llprotocol.c:107-115 | the header goes out with its length field overwritten, and reading that field gives the length back |
| `Protocol.Connection.SendNop` | src/llprotocol.c:117-128 | a NOP request goes out |
| `Protocol.Connection.HlpGetHeader` | src/hlprotocol.c:80-98 | the loop finds the first header with the expected command |
| `Protocol.Connection.HlpGetHeaderAndExtdata` | src/hlprotocol.c:116-182 | code, data and input left for every case |
| `Protocol.Connection.SendRequests` | src/hlprotocol.c:707-723 | one request per kind in order, then the NOP; 4 or 5 if one cannot be sent |
| `Protocol.Connection.SystemInformationMultiple` | src/hlprotocol.c:697-764 | the requests go out, and result, input left and device information are those of the replies |
| `Protocol.Connection.DiscardIncoming` | src/hlprotocol.c:936-956 | 1, 0 or -1, and the input left |
| `Protocol.DevInfo.Extract` | src/hlprotocol.c:36-53 | at most 1023 octets, control and non-ASCII characters replaced by spaces |
| `Protocol.DevInfo.Update` | src/hlprotocol.c:578-646 | the switch sets exactly the strings the table of kinds says |
| `Bytes.LE32RoundTrip` | src/bintools.h:72-96 | writing and reading 32 bits little-endian |
| `Bytes.LE16RoundTrip` | src/bintools.h:77-99 | two octets are read as n iff they are what is written for n, the low one first |
| `Bytes.BERoundTrip` | src/bintools.h:35-51 | writing and reading big-endian |

## Left out

- `Dhav2Mkv.ProcessDhavStream`: asks of the input only what the code cannot do without (`Processable`): the run comes to no zero header behind a zero trailer, where the loop never ends; I-frames, and video frames behind the first usable one, are long enough for what is read of them and for `body_len` not to wrap; a usable I-frame has a height, which the code divides by; and with correction no video frame follows an I-frame with rate 0, which it divides by too.  Failures of writing the output file are not modelled.
- `Conversion.ConversionReads`: the same of the frames.
- `FrameInfo.McParms.CollectFrame`: the same of the frame; from a short frame of another type the code reads header fields out of old octets of the buffer, and does not use them.
- `StreamQueue.DrainDhav`: a drain that comes to a zero header behind a zero trailer does not end, `DhavDrain.DrainDivergesIffStuck`, and has no outcome to state.
- `StreamQueue.CopyDhavStream`: begins behind the identification loop of `src/dvrcontrol.c:675-702`; signals, failures of reading and writing, and the polling in between are not modelled.
- `StreamQueue.Dstf.SearchNal`: the index is unbounded; the code's `int` would overflow for queues of 2^31 octets.
- `StreamQueue.Dstf.ProcessDhav`: the code -4 and the filtered-frame code 2 of the comment never occur; memory in front of the queue array is eight arbitrary octets that do not change.
- `TimestampCorrector.TsProc.Process`: the code sets no return value on the normal path, and its callers ignore it; a frame rate of 0 is excluded.
- `Recording.SmoothTimes`: up to 10^8 blocks, which is as far as `TimestampCorrector.MachineRun` shows 64-bit arithmetic to agree with the integers.
- `Conversion.DirectTimesAreElapsed`: the time is stated modulo 2^64 ns, as the code keeps it.
- `Tunnel.StreamToPipe`: what a child sends after its tunnel has ended is lost with its pipe, as in the code; the delivered octets are compared with what was read.
- `Protocol.Connection.SystemInformationMultiple`: a query without a device information structure is not modelled.
- `dt_collect_raw_h264_frame_info` and raw H.264 to Matroska: the timing there is a placeholder.
- `stream_media_dvr_to_file` with Matroska output: the same calls as in `dhav2mkv`, but with an output buffer of the size of the input buffer, which a frame may not fit (-4).
- `transform_fps_to_mkvfps` and the averages in log lines: floating point; the frame rate is an opaque 32-bit value.
- `poll`, `fork`, sockets, signals, files: their results are scripts or parameters; `malloc` succeeds.
- The initial content of the poll structures and of the corrector's clocks is arbitrary, as in the code.
- Login, keep-alive, alarm, channel-name, configuration and media requests: straight-line exchanges.
- Command line, help texts, logging, and printing of device information.
