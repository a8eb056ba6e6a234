# FaceSign verification model

FaceSign is a school attendance server: cameras deliver frames, faces are
matched to enrolled students, a liveness vote decides, and the attendance of
the day is written. This project models the parts of it that hold logic of
their own and proves what they promise, over all inputs and all runs, and for the
camera streams, their pool, the recognition requests and the refreshes of the
face cache over all interleavings of their steps.

| module | subject |
|---|---|
| `JpegStream`, `FirstJpeg`, `JpegReads` | cutting JPEG frames out of a byte stream, however it is split into reads |
| `FrameStream` | one pooled camera stream: publish, error, stop, and waiting readers |
| `StreamPool`, `StreamHandout` | the pool: ensure, idle release, release and stop-all, in any interleaving, and what callers are handed |
| `Sorting`, `Folding`, `Greedy` | sorting, steps one after another, and greedy one-to-one selection by descending score |
| `Geometry`, `Suppression` | overlap of rectangles and non-maximum suppression |
| `TrackNames`, `PersonTrack`, `PersonFrame` | person tracks: association, blending, best face, identity |
| `Liveness`, `LivenessVerdict` | the liveness vote of a student's track against its complete history |
| `Attendance`, `Recognition`, `FrameEffects`, `RecognitionServer` | frames to attendance rows, over whole runs |
| `Requests`, `OverlapRun` | recognition requests side by side, each of their calls interleaved with those of the others |
| `School`, `SchoolEffects`, `SchoolStore`, `ClassOrder`, `SeatBoard` | students, classes, seats, the order of classes and the day's board |
| `Digest`, `DigestMeaning` | HTTP Digest parameters (section 3.4 of RFC 7616, quoted strings of section 5.6.4 of RFC 9110) |
| `FaceCodec`, `FaceCache`, `FaceMeaning`, `FaceRefresh` | stored features and the cache that must agree with the database, handler after handler and with refreshes that overlap |
| `ModelFiles` | completing a directory with the recognition models |
| `PhotoImport`, `ImportMeaning` | importing an archive of photos in several commits |

Objects that the server updates in place are classes whose methods are proved
equal to a specification function of the old state; the theorems are lemmas
about those functions. What each of these functions means is stated once more on
the fields themselves, with the numbers written out, in the contracts of the
methods or in lemmas beside them (`StreamHandout`, `LivenessVerdict`,
`FrameEffects`, `PersonFrame`, `SchoolEffects`, `DigestMeaning`, `FaceMeaning`,
`ImportMeaning`). Locks are modelled by making every lock section one
atomic step. Scores are real numbers, times are integers, and statements of the
database that fail change nothing. Where the server iterates over a map or
sorts with ties, the order is left open, so every result holds for each order.

Some promises do not hold as one would expect. For each of them the project
proves when they do hold:

- `readFirstJPEG` depends on how the stream is split exactly when the first
  frame ends past the limit, but by less than one read (`ChunkingMattersIff`).
- The day's recognition count is the number of writes, not of reported
  successes: a call can write and still report an error
  (`StoredButReportedAsFailed`). The two agree exactly if no call that wrote
  failed in `RowsAffected` or in the closing `SELECT` (`CountsReportedIff`).
- Attendance is recorded more than once for a track exactly if two requests
  observed it, verified, before its first commit, once these have run to their
  ends (`TwiceIff`; `OverlapHappens` is such a run). It never is if the requests
  of each session come one after the other (`SerialSucceedsOnce`) under a session
  id that is not empty (`CommitReachesTrackIff`).
- A camera has two running streams exactly if a recognition use and a preview or
  host use of it both still stand (`TwoRunIff`): a host camera is captured once
  if its earlier use as a network camera was ended, as the server does when a
  record is edited (`OneHostCapture`), and twice if not (`KindChangeLeavesTwo`).
- Moving a student back restores the seats unless a student without a seat
  displaced another (`MoveBackRestoresIff`); the opposite class move restores
  the order unless the first move was stopped at an end
  (`OppositeMoveRestoresIff`).
- A class rename whose row cannot be read back leaves a stale face cache exactly
  if one is loaded and holds a student of the class (`StaleIff`); the cache is
  right all through a run exactly if that never happens (`ConsistentThroughoutIff`;
  `StaleHappens` is an input).
- When refreshes of the face cache overlap, the cache is stale in the end exactly
  if the refresh that ended last was overtaken by one that had read later and
  other rows (`StaleIffOvertaken`, `OvertakingHappens`); refreshes one at a time
  leave it right (`OneAtATimeIsCurrent`).
- A Digest value that contains a quote or a backslash is not unescaped when it
  is read and so is escaped twice when it is sent back (`EscapeIsIdentityIff`).
  `internal/web/cameras.go` 1084-1087 escapes a quote with two backslashes; the
  model follows `internal/cameraio/cameraio.go`.

## Model

| member | source | states |
|---|---|---|
| JpegStream.ReadJpegSequence | internal/web/camera_stream_pool.go:743-793 | for every split into reads, the frames handed to the callback are those of the one parse of the whole stream up to the first refused one, all of them decodable and at most 16 MiB; an early stop is due to a frame or unterminated tail over 16 MiB or to a refusal; otherwise all frames were handed over, at most 16 MiB are left, and the ending is that of the reads |
| JpegStream.ReadOn | internal/web/camera_stream_pool.go:750-792 | the loop over the reads computes the scan after that many reads and ends at the end, at a failed read or at a verdict |
| JpegStream.Drain | internal/web/camera_stream_pool.go:758-785 | the loop over the buffer computes the drained scan |
| JpegStream.AfterReadsInOrder | internal/web/camera_stream_pool.go:743-793 | between two reads the buffer holds no whole frame and at most 16 MiB, and frames taken plus the parse of buffer and coming bytes is the parse of the stream |
| JpegStream.DrainedInOrder | internal/web/camera_stream_pool.go:760-784 | draining any buffer keeps that order or stops for one of the three reasons |
| JpegStream.IncompleteFrame | internal/web/camera_stream_pool.go:771-777 | a buffer without a whole frame only announces a longer one |
| JpegStream.ParseInvertsJoin | internal/web/camera_stream_pool.go:760-784 | frames written one after another, each after a part header, are parsed back exactly |
| JpegStream.ParseCuts | internal/web/camera_stream_pool.go:760-784 | the parse of a stream is the bytes from its first ff d8 to the first ff d9 two bytes or more later, followed by the parse of the rest, and nothing if there is no such pair |
| JpegReads.DeliveredMeans | internal/web/camera_stream_pool.go:750-792 | the stream is the data of the reads made, up to the first that reports the end or a failure, and the ending is that of the last of them, or a cancellation |
| FirstJpeg.ReadFirstJpeg | internal/cameraio/cameraio.go:172-198 | returns the first frame of the bytes looked at, or the right error |
| FirstJpeg.ScannerRefinesParse | internal/web/cameras.go:1089-1122 | never anything but the first frame of the stream, and that one whenever it ends within the limit |
| FirstJpeg.FirstOfParse | internal/web/cameras.go:1089-1122 | that frame is the first of the reference parse of the other scanner |
| JpegReads.ScannedMeans | internal/web/cameras.go:1089-1122 | the bytes looked at are those of the first reads, up to the one that reaches the limit or reports the end or a failure |
| FirstJpeg.ChunkingMattersIff | internal/cameraio/cameraio.go:172-198 | two splits of one stream can give different answers if and only if the frame ends after the limit but before limit plus one read |
| FrameStream.NetworkCameraStream.constructor | internal/web/camera_stream_pool.go:59-67 | a new stream is valid, with one open channel |
| FrameStream.NetworkCameraStream.Close | internal/web/camera_stream_pool.go:108-110 | a channel is closed only while it is open |
| FrameStream.NetworkCameraStream.PublishFrame | internal/web/camera_stream_pool.go:69-113 | a frame that is empty, over 16 MiB, cannot be decoded or, if it is no JPEG, encoded, or comes after a stop is refused with the right error and no effect; any other becomes the current frame with the next number, its own size, the source and the time, clears the error and wakes every reader |
| FrameStream.NetworkCameraStream.SetError | internal/web/camera_stream_pool.go:115-125 | an error is stored and wakes every reader, no error changes nothing |
| FrameStream.NetworkCameraStream.StopStream | internal/web/camera_stream_pool.go:142-160 | the first stop cancels the capture, sets the error and wakes every reader, a second one changes nothing |
| FrameStream.NetworkCameraStream.Current | internal/web/camera_stream_pool.go:184-194 | the current frame exactly if the stream runs and has one that is not empty and not too old |
| FrameStream.RunKeepsValid | internal/web/camera_stream_pool.go:69-160 | in every run the current channel is open, every superseded one was closed exactly once, and the capture was cancelled once if stopped |
| FrameStream.HeldChannel | internal/web/camera_stream_pool.go:244-262 | a reader's channel is still open if and only if nothing has been published, reported or stopped since, and then the whole state is the one it saw |
| FrameStream.SequenceCounts | internal/web/camera_stream_pool.go:95-105 | the sequence number counts the accepted frames in 64 bits and is frozen by a stop |
| FrameStream.BlockingMissesNothing | internal/web/camera_stream_pool.go:242-275 | a reader that looks again only when its channel is closed gets what a reader polling after every turn gets |
| FrameStream.BlockingMissesNothingCurrent | internal/web/camera_stream_pool.go:196-241 | the same for a bounded age, with a clock that does not run backwards |
| FrameStream.PollNextReturns | internal/web/camera_stream_pool.go:242-275 | a returned frame is newer than asked for and not empty; if a reader is still waiting, the stream is not stopped and has no frame that is newer and not empty |
| FrameStream.NextAnswered | internal/web/camera_stream_pool.go:242-275 | the polling reader answers at its first look with something to return, with just that: a stop, a frame newer than asked for and not empty, the timer or the cancellation |
| FrameStream.CurrentAnswered | internal/web/camera_stream_pool.go:196-241 | the same for a frame of bounded age, with the stored error between frame and timer |
| FrameStream.NetworkCameraStream.WaitNext | internal/web/camera_stream_pool.go:242-275 | returns at the first of the reader's looks at which there is something to return: the frame if it is newer than asked for and not empty, the cancellation if the stream is stopped, and otherwise what timer or context end the wait with; equals the polling reader, for every schedule of other goroutines, timer and cancellation |
| FrameStream.NetworkCameraStream.WaitCurrent | internal/web/camera_stream_pool.go:196-241 | the same for a frame of bounded age, where a stored error ends the wait too; without a wait it returns that frame, the error, or that there is no frame yet |
| FrameStream.NetworkCameraStream.WaitFrame | internal/web/camera_stream_pool.go:205-240 | the loop of the wait with a bounded age answers as the polling reader does |
| StreamPool.StepKeepsValid | internal/web/camera_stream_pool.go:324-428 | every step keeps: a stream runs if and only if it is its camera's map entry or a caller that removed it will stop it, never both; every stream not launched will be |
| StreamPool.RunKeepsValid | internal/web/camera_stream_pool.go:324-428 | this holds in every interleaving of all calls and their later actions |
| StreamPool.AtMostOnePerPool | internal/web/camera_stream_pool.go:331-355 | apart from streams about to be stopped, at most one running stream per camera and pool |
| StreamPool.BothMapsBothRun | internal/web/camera_stream_pool.go:331-355 | a camera with an entry in both maps has two running streams |
| StreamPool.EntryIff | internal/web/camera_stream_pool.go:324-428 | in every run a map holds a camera if and only if it was asked for with a purpose that belongs there and no release, stop of all or idle release has ended that since |
| StreamPool.TwoRunIff | internal/web/camera_stream_pool.go:324-428 | without pending stops of its own, a camera has two running streams if and only if a recognition use and a preview or host use of it both still stand |
| StreamPool.OneHostCapture | internal/web/cameras.go:126-131 | a camera whose every recognition use as a network camera has been ended, as by the release after an edit, has at most one running stream in all |
| StreamPool.KindChangeLeavesTwo | internal/web/camera_stream_pool.go:329-345 | a record changed from host to network camera without a release leaves two |
| StreamPool.NoEarlyIdleRelease | internal/web/camera_stream_pool.go:384-399 | a recognition stream handed out at some time is not idle-released before five seconds later, whatever happens in between |
| StreamHandout.EnsureHandsOut | internal/web/camera_stream_pool.go:324-367 | in every run a camera that can stream is handed the stream of its map entry, untouched but for its last use, if and only if that stream captures this kind of camera with these settings for this purpose; otherwise a new stream takes the entry, to be launched once the old one, which is now to be stopped, has stopped; what is handed out captures the camera, is not stopped and is the map entry |
| StreamHandout.NothingToHandOut | internal/web/camera_stream_pool.go:324-328 | a camera that cannot stream gets nothing, and nothing changes |
| StreamHandout.LastUseIsHandout | internal/web/camera_stream_pool.go:347-351 | the last use of a recognition stream is the time it was last handed out |
| StreamHandout.IdleReleasedIff | internal/web/camera_stream_pool.go:384-399 | in every run an idle check takes the camera's stream out of the map, to be stopped, if and only if it is the entry and was handed out for the last time five seconds before or earlier; otherwise nothing changes |
| StreamPool.Pool.EnsureStream | internal/web/camera_stream_pool.go:324-367 | the lock section is the ensure step and hands out the stream of that step, or none |
| StreamPool.Pool.StopIfIdle | internal/web/camera_stream_pool.go:384-399 | the lock section is the idle step, and tells whether it released |
| StreamPool.Pool.StopCamera | internal/web/camera_stream_pool.go:401-411 | the lock section is the release step |
| StreamPool.Pool.StopAllStreams | internal/web/camera_stream_pool.go:413-428 | the lock section is the stop-all step |
| StreamPool.Pool.StopStream | internal/web/camera_stream_pool.go:142-160 | one stop after the lock section |
| StreamPool.Pool.LaunchStream | internal/web/camera_stream_pool.go:357-366 | one launch after the lock section, once the call's stops are done |
| Greedy.Assign | internal/web/person_track.go:91-110 | the selection is one-to-one and in descending order of score, every candidate is blocked by a selected one of at least its score, and no conflict-free set is worth more than twice the selection, for every order of ties |
| Greedy.UnselectedIsBlocked | internal/web/recognition.go:278-297 | a candidate passed over shares its face or student with a selected one that scores no less |
| Greedy.HalfOptimal | internal/web/recognition.go:278-297 | no conflict-free set of candidates is worth more than twice the selection |
| Greedy.SelectionIsGreedyMatching | internal/web/recognition.go:278-297 | these facts together, for every sorted permutation |
| Geometry.IoUBounds | internal/person/engine.go:226-237 | overlap is symmetric and between 0 and 1, also for malformed rectangles |
| Geometry.IoUSelf | internal/person/engine.go:226-237 | a rectangle overlaps itself fully unless it is empty |
| Geometry.OverlapIsShare | internal/person/engine.go:226-237 | the overlap of two rectangles is the number of pixels in both divided by the number of pixels in either |
| Suppression.NonMaximumSuppression | internal/person/engine.go:204-224 | kept boxes come from the candidates in descending order of score, overlap pairwise at most by the threshold and are at most as many as allowed; every dropped box overlaps a kept one of at least its score or comes after the last place |
| Suppression.MergePersonDetections | internal/web/recognition_person_scheduler.go:145-168 | is the same suppression with threshold 0.45 and 24 places |
| Suppression.Idempotent | internal/person/engine.go:204-224 | suppressing the output again keeps it, whatever the order of ties |
| PersonTrack.BlendStaysBetween | internal/web/person_track.go:258-272 | blending two proper rectangles gives a proper one with every edge between the two it comes from |
| PersonTrack.PersonTracker.Observe | internal/web/person_track.go:68-148 | expired tracks go with their histories, all pairs scoring 0.20 are matched greedily, matched tracks move and keep what is known of their face, other detections start tracks under ids never used before, with an empty history |
| PersonTrack.PlacingPlaces | internal/web/person_track.go:112-147 | the ids reported in a frame are distinct, each is the matched track's or new, and no other track changes |
| PersonFrame.FrameMeans | internal/web/person_track.go:68-148 | a frame drops the tracks not seen for more than two seconds; a matched track gets its detection's score and the time of the frame and keeps what is known of its face; every other detection starts a track with its rectangle, of whose face nothing is known, under a number not used before; other tracks stay; every detection is reported with its track's fields |
| PersonFrame.CandidateMeans | internal/web/person_track.go:91-99 | the candidates are exactly the pairs of a detection and a live track that score 0.20 |
| PersonFrame.PlaceMoves | internal/web/person_track.go:258-272 | each edge of a moved track is 0.32 of the old and 0.68 of the detected one, rounded half away from zero; a track without a rectangle takes the detected one |
| PersonTrack.PersonTracker.NeedFeature | internal/web/person_track.go:150-167 | a feature is needed exactly if the quality is at least 0.45 and the track is unknown, has had none, is 0.04 better than its best, or has no identity and had its last one 600 ms ago |
| PersonTrack.PersonTracker.RecordFeature | internal/web/person_track.go:169-195 | records on the track if it lives, and on no other, and appends the record to its history |
| PersonTrack.PersonTracker.RecordOn | internal/web/person_track.go:178-194 | the identity is taken over exactly if there was none, it is the same, or quality and similarity are better by 0.08 and 0.03; best quality and last extraction are kept up to date and nothing else changes |
| PersonTrack.PersonTracker.Identity | internal/web/person_track.go:197-212 | the track's identity, similarity and best quality |
| PersonTrack.ObserveFollows | internal/web/person_track.go:68-148 | moving, expiry and creation keep every live track equal to the replay of its complete record history |
| PersonTrack.LiveTrackLife | internal/web/person_track.go:169-195 | a live track's identity came with one of its records, its best quality is the best recorded, and it changed identity at most six times |
| PersonTrack.BestIsMaximum | internal/web/person_track.go:178-182 | best quality is the maximum over any run of records |
| PersonTrack.AtMostSixChanges | internal/web/person_track.go:186-190 | at most six identity changes in any run of recorded qualities |
| PersonTrack.SixChangesHappen | internal/web/person_track.go:186-190 | six are possible, so the bound is tight |
| PersonTrack.FeatureBudget | internal/web/person_track.go:150-167 | an identified track has at most 13 more features extracted |
| TrackNames.TrackIdInjective | internal/web/recognition_track.go:89-100 | a printed track id tells its session and number, whatever the session is called |
| TrackNames.PersonTrackIdInjective | internal/web/person_track.go:117-120 | the number of a person track can be read off its id |
| Liveness.StepFollowsHistory | internal/web/recognition_track.go:101-137 | a step on six remembered scores follows the verdict on the complete history |
| Liveness.LiveTrackRemembers | internal/web/recognition_track.go:82-174 | every track that survived its history holds the verdict of the untrimmed history; an undecided one holds all its scores, fewer than six |
| Liveness.SessionRemembers | internal/web/recognition_track.go:82-174 | this holds for every live track of a session in every run |
| Liveness.VerdictLatches | internal/web/recognition_track.go:121-137 | a verdict once reached stays and is never replaced by the other |
| Liveness.LiveMeans | internal/web/recognition_track.go:121-137 | a live verdict was reached at some frame, on at least three scores of 0.60 and an average of at least 0.68 up to that frame |
| LivenessVerdict.VerdictIff | internal/web/recognition_track.go:107-136 | a history is fake if and only if at the first n scores that settle it there are three or more, they average below 0.40 and two of them are below 0.40; it is live if and only if there are three or more, all at 0.60 or above and 0.80 on average, or four or more, three of them at 0.60 or above and 0.68 on average |
| LivenessVerdict.TrackVerdictIff | internal/web/recognition_track.go:107-136 | a live track is rejected or verified if and only if the scores of its complete history are found fake or live in that sense |
| LivenessVerdict.FrameDecides | internal/web/recognition_track.go:69-176 | a frame drops the tracks not seen for more than three seconds and decides every observation: verified or rejected as its complete history says, timed out exactly if undecided after two seconds or six frames, the averages over the last six scores and over all similarities, attendance needed exactly if verified and not committed; a track that timed out is gone, the others have one more observation in their history, and students not observed are left alone |
| Liveness.IdsDistinct | internal/web/recognition_track.go:178-191 | ids tell live tracks apart, so a commit marks one track |
| Liveness.RecognitionTracker.Observe | internal/web/recognition_track.go:69-176 | one frame: expiry, votes and decisions, keeping every track's complete history |
| Liveness.RecognitionTracker.Vote | internal/web/recognition_track.go:109-133 | average and verdict of the remembered scores |
| Liveness.RecognitionTracker.Commit | internal/web/recognition_track.go:178-191 | marks the one track with the id, in the session named exactly so, and changes nothing else |
| Attendance.AttendanceTable.MarkAttendance | internal/store/attendance.go:11-54 | for every failing statement, the row that is written, field by field, or that none is; whether the call reports success, and what it reads back |
| Attendance.CountsStoredCalls | internal/store/attendance.go:20-36 | from any table, over any run of calls with students enrolled and removed in between, the count grows by the number of writes since the student was last removed; without a row before, the first write fixes check-in time and similarity, and the last write fixes last-seen |
| Attendance.ReportedAreStored | internal/store/attendance.go:11-54 | the calls that report success are exactly the calls that wrote, without those that failed afterwards |
| Attendance.CountsReportedIff | internal/store/attendance.go:11-54 | the count grows by the number of reported successes if and only if no call that wrote failed in RowsAffected or in the closing SELECT, and by more otherwise |
| Attendance.RunKeepsForeignKeys | internal/store/schema.go:42-51 | every attendance row belongs to an enrolled student, also when students are removed |
| Attendance.StoredButReportedAsFailed | internal/store/attendance.go:37-50 | a write can be reported as a failure, so count and reported successes differ |
| Recognition.RunKeepsInvariant | internal/web/recognition.go:356-401 | over any run of frames attendance succeeds at most once per track id, and the table is what the attempts made of it |
| Recognition.AttemptedOnlyWhenVerified | internal/web/recognition.go:375-394 | attendance is attempted only for a student whose live, uncommitted track has the verdict live on its complete history |
| Recognition.RunCounts | internal/web/recognition.go:375-394 | a day's row counts the storing attempts of the run and keeps the first check-in; the attempts that told of success are those that did not fail late, and are as many if and only if none did |
| Recognition.TalliesAddUp | internal/web/recognition.go:356-401 | every decision is tallied once, unless a failed write ends the frame |
| FrameEffects.TalliesCount | internal/web/recognition.go:356-401 | unless a failed write ends the frame, the tallies are the numbers of decisions rejected, else verified, else timed out, else open |
| FrameEffects.FrameTries | internal/web/recognition.go:375-394 | a frame tries one attendance for each decision that needs one, in order, with the student and similarity of its observation, up to the first that fails |
| FrameEffects.FrameMarks | internal/web/recognition.go:375-394 | a frame marks exactly the tracks for which one of its own attempts succeeded, and changes nothing else of the sessions |
| Requests.AskedIff | internal/web/recognition_track.go:139-174 | in any interleaving of requests, a request is asked for the attendance of a verified track if and only if no commit of the track came before its Observe |
| Requests.SuccessesObservedEarly | internal/web/recognition.go:356-401 | in any interleaving a track's successes are successful writes of requests that observed it, verified, before its first commit, one each |
| Requests.SucceededIff | internal/web/recognition.go:356-401 | in any interleaving a request records attendance for a track if and only if it observed the verified track before its first commit and has carried out its decision without a failed write |
| Requests.TwiceIff | internal/web/recognition.go:375-394 | once the requests that observed a verified track before its first commit have run to their ends, its attendance has succeeded more than once if and only if there are two of them |
| Requests.OverlapSucceedsTwice | internal/web/recognition.go:375-394 | in any run, two requests whose frames show a student, anywhere in the frame, while the verified track is not committed record it twice if all requests run to their ends |
| OverlapRun.OverlapHappens | internal/web/recognition.go:356-401 | a run from the start in which that happens: three frames scored 0.9, and a fourth observed before the third request writes; the day counts two recognitions |
| Requests.SerialSucceedsOnce | internal/web/recognition.go:356-401 | if the requests of each session come one after the other, attendance succeeds at most once per track, however sessions overlap |
| Requests.RunCounts | internal/store/attendance.go:11-54 | in any interleaving, with students coming and going, a day's count grows by the writes, and by the writes reported as successful if and only if none of them failed late |
| Requests.AloneIsFrame | internal/web/recognition.go:356-401 | a request that nothing comes between changes tracker and table as one frame of a run does |
| Requests.RunKeeps | internal/web/recognition.go:356-401 | in any interleaving, a live track is committed if and only if a commit of its id has been made, and every write belongs to a decision that asked for it |
| Recognition.CommitReachesTrackIff | internal/web/recognition_track.go:178-184 | a commit reaches the observed track if and only if the session id is not empty |
| RecognitionServer.Server.RecognizeFrame | internal/web/recognition.go:278-401 | a frame from the candidates on: greedy selection by descending score; one observation for each selected match with a liveness score, in that order, with the match's student, its score as similarity and the score of its face as liveness score; no student twice; and the run step of tracker, table and tallies |
| RecognitionServer.Server.Decide | internal/web/recognition.go:356-401 | the loop over the decisions, ended by a failed write |
| RecognitionServer.SelectedStudentsDistinct | internal/web/recognition.go:278-297 | a frame never observes a student twice |
| RecognitionServer.SelectedAreObserved | internal/web/recognition.go:318-353 | the observations are those of the selected matches whose face has a liveness score, one each and in their order, with student, similarity and liveness score where they belong |
| School.CreateStudentKeepsValid | internal/store/students.go:12-31 | creating a student keeps all table invariants: unique numbers, names and orders, valid layouts, and seats that exist, fit and are unique in the class |
| School.ProfileKeepsValid | internal/store/students.go:137-176 | so does editing a profile, which gives up the seat with the class |
| School.ChangeClassKeepsValid | internal/store/students.go:178-195 | so does changing the class |
| School.SeatKeepsValid | internal/store/students.go:197-243 | so does giving a seat |
| School.MoveKeepsValid | internal/store/students.go:245-317 | so does moving or exchanging seats |
| School.DeleteStudentKeepsValid | internal/store/students.go:319-332 | so does deleting a student |
| School.CreateClassKeepsValid | internal/store/classes.go:99-134 | so does creating a class |
| School.UpdateClassKeepsValid | internal/store/classes.go:149-206 | so does renaming a class and changing its layout |
| School.ArrangeKeepsValid | internal/store/classes.go:224-269 | so does arranging a class |
| School.DeleteClassKeepsValid | internal/store/classes.go:271-295 | so does deleting an empty class |
| School.ExchangeStatements | internal/store/students.go:284-307 | no single statement of a move breaks the unique index on class and seat |
| School.RenameKeepsUniqueSeats | internal/store/classes.go:196-201 | no row of a rename breaks it, in whatever order the rows are updated |
| School.ArrangingKeepsUnique | internal/store/classes.go:257-264 | no statement of an arranging breaks it |
| School.MoveSwaps | internal/store/students.go:284-307 | a move between two occupied seats is an exact swap |
| SchoolEffects.MoveMeans | internal/store/students.go:245-317 | a move is refused exactly if class or student are unknown, the student is not of the class or the seat is not one of it; otherwise the student has the seat, whoever else of the class sat there has the student's old seat, and every other row and field is as before |
| SchoolEffects.DisplacedMeans | internal/store/students.go:284-292 | the student reported as displaced is the one who sat at the target |
| SchoolEffects.SeatMeans | internal/store/students.go:197-243 | a seat is given exactly if it is 0, or one of the class that nobody else of the class has; nothing else changes |
| School.MoveBackRestoresIff | internal/store/students.go:245-317 | moving back restores everything, unless a student without a seat took an occupied one |
| School.ArrangedByNumber | internal/store/classes.go:224-269 | arranging hands out the seats 1..n in the order of the student numbers and changes nothing else |
| SchoolEffects.ArrangeRefusedIff | internal/store/classes.go:224-256 | arranging is refused exactly if the class is unknown or has more students than seats |
| SchoolEffects.CreateClassMeans | internal/store/classes.go:99-134 | a class is created exactly if its name of up to 40 characters is free, its sides are 1 to 20 and its times can be read and are in order; it gets 6 rows of 8 where none are given, and comes after all others |
| SchoolEffects.UpdateClassMeans | internal/store/classes.go:149-206 | a class is changed exactly if the settings fit in that sense, it exists, has room for its students and their seats, and the name is free; it keeps its place in the order, its students go along under the new name, and nothing else changes |
| SchoolEffects.DeleteClassMeans | internal/store/classes.go:271-295 | a class is deleted exactly if it exists and no student is of it |
| SchoolStore.Store.CreateStudent | internal/store/students.go:12-31 | refused exactly if number or name are missing or the number is taken; otherwise one more row, without a seat |
| SchoolStore.Store.UpdateStudentProfile | internal/store/students.go:137-176 | refused exactly if the student is unknown, a text is missing or the number is taken by another; otherwise the row has the new texts, and the seat only if the class is the same; a row that cannot be read back was written all the same |
| SchoolStore.Store.UpdateStudentClass | internal/store/students.go:178-195 | refused exactly if the student or the class name is missing; a new class gives up the seat, the same class changes nothing |
| SchoolStore.Store.UpdateStudentSeat | internal/store/students.go:197-243 | refused exactly if the student is unknown or the seat is not free in the class; otherwise the row has the seat; the unique index never fails it |
| SchoolStore.Store.MoveStudentSeatInClass | internal/store/students.go:245-317 | refused exactly if the move is not possible; otherwise the student has the seat, whoever sat there the student's old one, and nothing else changes; the unique index never fails it |
| SchoolStore.Store.DeleteStudent | internal/store/students.go:319-332 | the row goes, or the student is unknown |
| SchoolStore.Store.CreateClassWithSettings | internal/store/classes.go:99-134 | error and new table as specified, with defaults for zero and an order after all others |
| SchoolStore.Store.UpdateClassSettings | internal/store/classes.go:149-206 | error and both new tables as specified; the unique index never fails it |
| SchoolStore.Store.AutoArrangeSeats | internal/store/classes.go:224-269 | error and new table as specified, for the roster by number |
| SchoolStore.Store.DeleteClass | internal/store/classes.go:271-295 | error and new table as specified |
| SchoolStore.Store.MoveClass | internal/store/classes.go:297-334 | refused exactly if the class is unknown or the direction is neither up nor down; the new table is that of the move |
| ClassOrder.MoveClassKeepsValid | internal/store/classes.go:297-334 | moving a class keeps all table invariants, distinct orders among them |
| ClassOrder.MoveTransposes | internal/store/classes.go:297-334 | a move exchanges the class with the one next to it in the listing, and does nothing at an end |
| SchoolEffects.MoveClassMeans | internal/store/classes.go:297-334 | a class that moves up exchanges its order with the class next before it, one that moves down with the class next after it; with none there nothing changes |
| SchoolEffects.ListingAscends | internal/store/classes.go:65-89 | classes are listed by ascending order |
| ClassOrder.OppositeMoveRestoresIff | internal/store/classes.go:297-334 | the opposite move restores the table if and only if the first one moved or neither can |
| ClassOrder.ListingUnique | internal/store/classes.go:65-89 | a table has one listing |
| SeatBoard.SeatBoardAt | internal/store/attendance.go:93-199 | the errors, and a board with every member once in board order, the right status of each, sums that add up, and as many empty seats as seat numbers nobody has |
| SeatBoard.BoardTells | internal/store/attendance.go:93-199 | on a board every student of the class is late if checked in after the class's time for that, on time if checked in otherwise, absent from the deadline on and waiting before, with the recognitions of the row; by seat, those without one last, then by number in dictionary order and id; the numbers count the items of each status and the seat numbers nobody has |
| SeatBoard.FreeSeatsCounted | internal/store/attendance.go:144-198 | with valid seats, capacity minus taken seats is the number of seat numbers held by nobody |
| SeatBoard.Partition | internal/store/attendance.go:150-181 | every student is counted under exactly one of on time, late, waiting and absent |
| SeatBoard.CountingCounts | internal/store/attendance.go:144-181 | the counting loop counts every status, and the sums of signed and unsigned |
| Digest.ParseDigestParams | internal/cameraio/cameraio.go:131-160 | computes the parse of the text |
| Digest.ParseInvertsPrint | internal/cameraio/cameraio.go:118-160 | parsing printed fields gives back exactly the printed keys, each with its token or escaped text, whatever the texts contain |
| Digest.HeaderParses | internal/cameraio/cameraio.go:118-129 | the same for the authorization header and its keys |
| DigestMeaning.HeaderReads | internal/cameraio/cameraio.go:118-129 | a receiver reads exactly the header's fields out of it, each text unescaped as it was |
| DigestMeaning.HeaderTells | internal/cameraio/cameraio.go:118-129 | among them user name, realm, nonce, URI and response, each under its own key |
| DigestMeaning.HeaderRepeats | internal/cameraio/cameraio.go:125-126 | the algorithm and the opaque text of the challenge exactly if it gives them |
| DigestMeaning.HeaderProtects | internal/cameraio/cameraio.go:127 | qop, nonce count and client nonce exactly if the challenge offers auth |
| Digest.DigestAuthorization | internal/cameraio/cameraio.go:97-129 | the errors, and the header printed from challenge and credentials |
| DigestMeaning.HeaderErrorIff | internal/cameraio/cameraio.go:97-104 | a challenge is refused exactly if it is not a Digest challenge, realm or nonce are missing or empty, or it asks for an algorithm other than MD5 and MD5-sess, in any letter case |
| DigestMeaning.ResponseIsRequestDigest | internal/cameraio/cameraio.go:108-117 | the response is the request digest of sections 3.4.1 to 3.4.3 of RFC 7616, from H, KD, A1 and A2 |
| DigestMeaning.HexReads | internal/cameraio/cameraio.go:162-165 | a hash is printed as two digits for each byte, the high one first |
| DigestMeaning.PartReads | internal/cameraio/cameraio.go:152-158 | a parameter is read whatever space is around key and value: the key in lower case, the value without the quotes around it |
| DigestMeaning.PartWithout | internal/cameraio/cameraio.go:152-154 | a part without an equals sign is no parameter |
| DigestMeaning.SplitCuts | internal/cameraio/cameraio.go:111-113 | the offered qualities of protection are cut at every comma and only there |
| Digest.EscapeIsIdentityIff | internal/cameraio/cameraio.go:167-170 | a text is printed unchanged if and only if it has no quote and no backslash; otherwise a second pass escapes it again |
| Digest.UnescapeInvertsEscape | internal/cameraio/cameraio.go:167-170 | a receiver that unescapes gets the original text |
| Digest.ScanEscaped | internal/cameraio/cameraio.go:136-151 | escaped text never ends its quotation and leaves no escape pending |
| FaceCodec.EncodeFeature | internal/face/codec.go:9-15 | writes the encoding into the buffer |
| FaceCodec.DecodeFeature | internal/face/codec.go:17-26 | reads it back, or rejects the length |
| FaceCodec.RoundTrip | internal/face/codec.go:9-26 | a feature comes back bit by bit unless it is empty; a row that decodes is the encoding of the result |
| FaceCodec.LowestFirst | internal/face/codec.go:9-15 | each value takes four bytes, the lowest first |
| FaceCache.FaceServer.Reload | internal/web/face_cache.go:16-46 | replaces the cache by the decodable rows in order, or leaves it when the read fails |
| FaceCache.FaceServer.CachedFaceSamples | internal/web/face_cache.go:48-64 | hands out the cache, loading it first if there is none |
| FaceCache.FaceServer.RefreshAfterMutation | internal/web/face_cache.go:66-76 | leaves the current rows or no cache |
| FaceCache.ViewIsTheRows | internal/store/faces.go:55-84 | the view holds every decodable row once, in the order of student, time and sample |
| FaceMeaning.ViewMeans | internal/store/faces.go:55-84 | what can be handed out is the samples of existing students that decode, with the student's number, name and class, by student, then time, then id |
| FaceCache.StepKeepsConsistent | internal/web/enrollment.go:78-90 | a handler keeps the loaded cache equal to the rows if and only if it is not a class update that leaves a change unrefreshed that shows in the cache |
| FaceCache.StaleIff | internal/web/classes.go:141-149 | that update leaves a stale cache if and only if one is loaded, the name changed and some cached student is in the class |
| FaceCache.ConsistentThroughoutIff | internal/web/face_cache.go:48-76 | the cache equals the rows all through a run if and only if no class update of the run leaves it stale |
| FaceCache.HandedOutAreCurrent | internal/web/face_cache.go:48-76 | in any run without such an update, with reloads failing at will, samples handed out are the rows of the database |
| FaceCache.StaleHappens | internal/web/classes.go:141-149 | a rename that cannot be read back and leaves a stale cache |
| FaceCache.EnrolledComesBack | internal/web/enrollment.go:78-90 | the feature just enrolled is handed out bit by bit |
| FaceCache.CreateIsNeutral | internal/web/students.go:21-35 | creating a student without a face needs no refresh |
| FaceCache.MoveIsNeutral | internal/web/classes.go:163-180 | moving seats needs no refresh |
| FaceCache.ArrangeIsNeutral | internal/web/classes.go:153-161 | arranging seats needs no refresh |
| FaceRefresh.StepsTell | internal/web/face_cache.go:16-76 | in any interleaving of changes, reads and sets, the cache is what the refresh that ended last had read, or dropped |
| FaceRefresh.StaleIffOvertaken | internal/web/face_cache.go:16-76 | once every change has been refreshed and all refreshes have ended, the cache is stale if and only if the refresh that ended last was overtaken by one that had read later and other rows |
| FaceRefresh.OneAtATimeIsCurrent | internal/web/face_cache.go:16-76 | refreshes that do not overlap leave the cache equal to the rows |
| FaceRefresh.OvertakingHappens | internal/web/face_cache.go:41-44 | an enrolment and a removal whose refreshes end in the wrong order leave a stale cache |
| FaceCache.DuplicateMeans | internal/web/enrollment.go:146-167 | a face is a duplicate if and only if a sample of another student reaches the threshold |
| FaceMeaning.SameMeans | internal/web/enrollment.go:146-167 | the score of the student's own samples is the best of them, and whether there are any |
| FaceMeaning.OtherMeans | internal/web/enrollment.go:146-167 | the score of the other samples is the best of them, with the student it belongs to |
| FaceMeaning.EnrolMeans | internal/web/enrollment.go:47-96 | a face is enrolled exactly if the samples can be read, none reaches the threshold, the class exists, and number and name are given and the number is free; then student and sample are new rows and the cache is read anew or dropped |
| FaceMeaning.AddMeans | internal/web/enrollment.go:98-136 | a sample is added exactly if the student exists, no other student's sample that reaches the threshold is closer than all of the student's, one of these, if there are any, reaches the threshold, and none reaches 0.995 |
| FaceCache.FaceServer.CompareFeature | internal/web/enrollment.go:146-167 | the comparison with the handed out samples |
| FaceCache.FaceServer.CreateEnrollment | internal/web/enrollment.go:47-96 | stores student and sample unless the face is a duplicate, the class is unknown or the number taken, then refreshes |
| FaceCache.FaceServer.AddFaceSample | internal/web/enrollment.go:98-136 | stores a sample unless it is closer to another student, does not match the student or adds nothing, then refreshes |
| FaceCache.FaceServer.DeleteFaceSample | internal/web/students.go:175-188 | deletes the sample if it is the student's and no other row, then refreshes; otherwise changes nothing |
| FaceCache.FaceServer.DeleteStudent | internal/web/students.go:57-63 | deletes the student with exactly the student's samples, then refreshes; otherwise changes nothing |
| FaceCache.FaceServer.UpdateClassSettings | internal/web/classes.go:130-149 | changes the class and renames its students, then refreshes unless the class cannot be read back |
| ModelFiles.ModelStore.Resolve | internal/models/models.go:67-115 | succeeds if and only if a candidate is complete, or one can be written and every model it lacks can be copied or downloaded with the right hash and its write succeeds; then every model is valid in the returned candidate, and exactly the models valid in no candidate were downloaded; nothing is written when a candidate is complete; a failure names the first model that could not be supplied; no valid model file is lost and no other file touched, on failure either |
| ModelFiles.ModelStore.CompleteBest | internal/models/models.go:79-115 | the best writable directory is completed, if and only if it can be |
| ModelFiles.ModelStore.Complete | internal/models/models.go:84-115 | the loop over the models completes the target if and only if every model can be supplied, and stops at the first that cannot |
| ModelFiles.ModelStore.ChooseTarget | internal/models/models.go:117-145 | the writable candidate with the most valid models, the first on a tie |
| ModelFiles.ModelStore.WriteVerified | internal/models/models.go:211-238 | succeeds if and only if the hash is right and every file operation needed works; then the target holds the data, and otherwise it is as before, or gone if only the rename failed |
| ModelFiles.ModelStore.Supply | internal/models/models.go:84-113 | one model is kept, copied or downloaded, if and only if it can be, and no other file changes |
| PhotoImport.Analyze | internal/web/photo_import.go:91-318 | the items of the archive, or the error for too many or none; directories and the archiver's own entries never count against the limit |
| PhotoImport.ClassifyPhoto | internal/web/photo_import.go:255-286 | the status of one more photo |
| PhotoImport.AnalysisSorts | internal/web/photo_import.go:255-286 | ready photos are pairwise below the threshold, a duplicate names an earlier ready photo of the same face, and exactly the photos of known faces are marked as known |
| ImportMeaning.ClassifyTells | internal/web/photo_import.go:255-286 | a photo is of a known face if a sample reaches the threshold, to be reviewed if one comes within 0.04 of it and reaches 0.55, both with the most similar student and the score, a duplicate of the first earlier ready photo that reaches the threshold, and ready otherwise |
| ImportMeaning.EveryPhotoIsAnItem | internal/web/photo_import.go:155-290 | every photo of the archive is one item, in the order of the archive, sorted against the items before it |
| PhotoImport.AnswersKeepStoredOnce | internal/web/photo_import.go:392-516 | imported plus skipped plus failed is the number of requests, each import stores one thing, and no item stores twice |
| PhotoImport.CreatedApart | internal/web/photo_import.go:384-516 | over all commits of a session, whatever other handlers do in between, every item stores at most one student or sample, and the students created are pairwise below the threshold |
| PhotoImport.TablesMatchStored | internal/web/photo_import.go:384-516 | over the same runs, with new ids for new rows: the tables hold what was there, what other handlers brought and exactly what the items stored, less what other handlers took away, and the sample of an item holds the item's face |
| PhotoImport.HandleWrites | internal/web/photo_import.go:392-516 | one request writes nothing to the samples and adds no row, or exactly the rows of what its item stores |
| ImportMeaning.AnswerMeans | internal/web/photo_import.go:392-426 | the first item with the id is skipped if that is asked or it was done before, taken up if it is ready or known and the class exists, and failed otherwise; no other item changes |
| ImportMeaning.NewMeans | internal/web/photo_import.go:427-461 | a photo becomes a student exactly if it is ready, number and name are given, no sample reaches the threshold, the number is free and the write succeeds; then exactly one student and one sample are new |
| ImportMeaning.SupplementMeans | internal/web/photo_import.go:463-510 | a photo becomes a further sample exactly if a sample of the student reaches the threshold, no closer one of another student does, none of the student's reaches 0.995, and class and write allow it; it is skipped for good if one reaches 0.995 |
| ImportMeaning.SupplementChanges | internal/web/photo_import.go:497-505 | the student goes to the class, also if the sample then cannot be written, and a changed class gives up the seat |
| ImportMeaning.SupplementStores | internal/web/photo_import.go:502-510 | the sample stored is the student's, with the item's face, and none is stored otherwise |
| ImportMeaning.CountsTell | internal/web/photo_import.go:388-516 | the three counts of a commit are the numbers of its answers of each kind |
| PhotoImport.CommitIsSteps | internal/web/photo_import.go:384-520 | a commit is its requests in turn and then a refresh if anything was imported |
| PhotoImport.PhotoImportSession.Commit | internal/web/photo_import.go:373-527 | a commit answers every request in turn and refreshes the cache if anything was imported |
| PhotoImport.PhotoImportSession.CreateFromPhoto | internal/web/photo_import.go:427-461 | the branch for a new student |
| PhotoImport.PhotoImportSession.SupplementFromPhoto | internal/web/photo_import.go:463-510 | the branch for a further sample |

## Left out

- Inference, image decoding, pixel loops and quality scoring: scores, decodings and features are inputs.
- Floating-point rounding: scores, weights and overlap ratios are exact reals; the match threshold is positive, as cmd/facesign/config.go 45 demands.
- FFmpeg, WebRTC, RTSP and HTTP clients, reconnect timing and TLS: input and output plumbing.
- The database engine and schema migrations: tables are maps, a failing statement changes nothing, and two operations do not run at once on the store.
- Trimming and letter case outside ASCII: arguments of the store stand for trimmed texts; legacy rows with untrimmed class names are not covered.
- JpegStream.ReadJpegSequence: a cancelled context is modelled as the end of the reads.
- JpegStream.ReadJpegSequence: the callback is `publish` on a stream that is not stopped meanwhile.
- FirstJpeg.ReadFirstJpeg: the buffers are values, not slices of one array.
- FrameStream.NetworkCameraStream.WaitNext: the other goroutines are a script of events between the reader's turns.
- PersonTrack.PersonTracker.Observe: the association score is any function of two rectangles, so its own formula is not covered.
- Attaching faces to persons, person results and statuses shown to the user in recognition responses: presentation.
- Reuse of person detections under load, tiles for small persons, the recognition gate and statistics: easy members.
- Recognition.RunCounts: enrolment does not change during a run of frames; Requests.RunCounts lets it change.
- SchoolStore.Store.UpdateStudentSeat: the reads before the write are taken to happen at one moment, as are those of the other operations without a transaction.
- Profile edits (`internal/web/students.go` 72-139) and photo-import commits in the face-cache runs: a profile edit whose row cannot be read back, or whose seat is then refused, and a commit whose supplement fails after the class was changed leave the cache without a refresh too.
- Suppression.NonMaximumSuppression: the sort works on a value instead of in place.
- Digest.DigestAuthorization: MD5 is any function to bytes, and the client nonce is an input.
- The escape in `internal/web/cameras.go` 1084-1087, which differs from the one modelled.
- ModelFiles.ModelStore.Resolve: temporary files have names of their own and are removed; pinned model names are distinct.
- Archive reading, thumbnails, class hints and expiry of photo-import sessions: input and presentation.
- Camera records, settings, the Windows manager, scripts and browser code: user interface and operating system.
