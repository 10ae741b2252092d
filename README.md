# Bird-watching stream monitor: a verified model of its control core

birds.py watches a Twitch stream for birds. A background `FrameGetter` process
keeps decoding the live feed and retains only the newest frame. It hands that
frame out when the "get_frame" command arrives on its command queue. The main
loop polls the stream's id once every 60 one-second ticks. On every id change it
ends the current frame getter, and it starts a new one when the new id is live.
On every tick that has a getter, the loop requests a frame and runs the YOLOv5
detector on it. `Inferencer.check_for_bird` then reports whether a bird was seen
and how long it has been since the previous detection. When that delta exceeds
30 seconds, a photo is sent to Telegram with a link to the VOD at the current
time offset, formatted `?t=HHhMMmSSs`.

This project models that logic in Dafny. Twitch, streamlink, OpenCV, YOLOv5,
Telegram and the clock are replaced by inputs:

- `wrappers.dfy`: `Option`, standing for Python's `None`-or-value.
- `sequences.dfy`: two facts about sequence concatenation used by the trace proofs.
- `twitch_info.dfy` (module `TwitchInfo`, pure): `hours_minutes_seconds`,
  `str(n).zfill(2)` and the VOD suffix with its parser, the `url[12:]` slice,
  and the choice made by `get_current_stream_id`.
- `frame_getter.dfy` (module `FrameGetting`): the reader loop `_capturing` as a
  state machine. Its state is the retained frame, the pending commands, the
  answers produced and whether the loop still runs. It is run over a trace of
  events, each either a command put by the caller or one loop iteration with its
  read outcome. The `FrameGetter` class holds that state in fields. Its
  `Capture` method is the loop, proved equal to the state machine.
- `inferencer.dfy` (module `Inferencer`): the detection gate. The
  `Inferencer` class updates `last_detection_time` in place.
- `controller.dfy` (module `Controller`): the `__main__` loop. The `MainLoop`
  class holds `current_stream_id`, whether a getter exists, `c` and a log of
  lifecycle events. The log records polls, getter starts and ends, frame
  requests and photos sent. `Step` and `Run` are the functions the class is
  proved against.

Two behaviours of the code shape the model:

- The code resets `last_detection_time` on every bird detection
  (birds.py:123-124), not only when a photo goes out. A bird that stays in view
  and is seen at least every 30 s therefore never causes a photo after the first
  (`Inferencer.SteadyBirdIsSilent`). Sightings at 0, 5 and 35 s send a photo
  only at 0 (`Inferencer.SightingsAtZeroFiveThirtyFive`).
- Opening the stream happens inside the reader process (birds.py:70-72), not in
  `FrameGetter.__init__`. A capture that OpenCV cannot open does not stop the
  reader: every read fails, so every answer is `None`
  (`FrameGetting.NothingBeforeFirstDecode` with only failed reads).

## Model

| member | source | states |
|---|---|---|
| `TwitchInfo.HoursMinutesSeconds` | birds.py:45-46 | Hours, minutes and seconds are all below 60. For `td.seconds` below 86400, hours are below 24 and `h*3600 + m*60 + s` gives back `td.seconds`. |
| `TwitchInfo.DaysAreDropped` | birds.py:45-46 | The written split of 1 day 5 s is 0 h 0 m 5 s: the days of the duration are lost. |
| `TwitchInfo.ElapsedHoursMinutesSeconds` | birds.py:32-33 | The corrected split of the time since the VOD began: minutes and seconds below 60, and `h*3600 + m*60 + s` equals the whole elapsed time, days included. |
| `TwitchInfo.SplitsAgreeWithinADay` | birds.py:45-46 | On durations below one day, the corrected split equals the written one. |
| `TwitchInfo.ClockUnique` | birds.py:46 | A number of seconds has only one split into hours, minutes below 60 and seconds below 60. |
| `TwitchInfo.Decimal` | birds.py:35 | `str(n)` is a non-empty string of digits. It is one digit long exactly when `n < 10`, and it has no leading zero. |
| `TwitchInfo.DecimalRoundTrip` | birds.py:35 | Reading the digits of `str(n)` back gives `n`. |
| `TwitchInfo.ZFill` | birds.py:35 | `zfill(w)` has length `max(len, w)`, ends with the original string, and everything before it is `'0'`. |
| `TwitchInfo.ZerosDoNotCount` | birds.py:35 | `zfill` keeps a string of digits a string of digits, and the number it denotes is unchanged. |
| `TwitchInfo.TwoDigitsBelowHundred` | birds.py:35 | For `n < 100`, `str(n).zfill(2)` is exactly the tens digit and then the units digit of `n`. |
| `TwitchInfo.TwoDigitsFromHundred` | birds.py:35 | For `n >= 100`, `str(n).zfill(2)` is longer than two characters. |
| `TwitchInfo.VodSuffixRoundTrip` | birds.py:35 | With every field below 100, the suffix `?t=HHhMMmSSs` is 12 characters long and parses back to the same hours, minutes and seconds. |
| `TwitchInfo.VodSuffixCanonical` | birds.py:35 | Every string that parses as a suffix is exactly the suffix of the clock it parses to. The suffix format is therefore one-to-one. |
| `TwitchInfo.DropFirst12` | birds.py:35 | `url[12:]` has length `len(url) - 12`, or 0 for shorter urls, and holds the url's characters from position 12 on. |
| `TwitchInfo.VodSuffixChars` | birds.py:35 | With every field below 100, the suffix `VodSuffix` builds is exactly `?`, `t`, `=`, the two digits of the hours, `h`, the two digits of the minutes, `m`, the two digits of the seconds, `s`. |
| `TwitchInfo.ParseSuffixChars` | birds.py:35 | `ParseVodSuffix`, the reader of the suffix format, reads the 12 characters of a clock with fields below 100 back to that clock. |
| `TwitchInfo.SuffixCharsOfParse` | birds.py:35 | Whatever `ParseVodSuffix` accepts has fields below 100 and is exactly the 12 characters of the clock it reads as. |
| `TwitchInfo.WrittenVideoUrlRoundTrip` | birds.py:24-36 | The link as written is `url[12:]` followed by a 12-character suffix. That suffix reads back to `td.seconds`, which is the elapsed time less its whole days. |
| `TwitchInfo.WrittenVideoUrlAfterOneDay` | birds.py:24-36 | One day and 5 s after the VOD began, the written link ends in `?t=00h00m05s`, while the corrected `CurrentVideoUrl` ends in `?t=24h00m05s`. |
| `TwitchInfo.CurrentVideoUrlRoundTrip` | birds.py:24-36 | For the corrected link `CurrentVideoUrl` (the written one with the days kept), below 100 hours: the link is `url[12:]` followed by a 12-character suffix. That suffix reads back to exactly the elapsed number of seconds, days included. Below one day this is the written link. |
| `TwitchInfo.CurrentStreamId` | birds.py:38-43 | The result is `None` exactly when the stream list is empty; otherwise it is the id of the first stream. |
| `FrameGetting.Launched` | birds.py:73 | The reader starts with no retained frame, no pending command, no answer, and its loop running. |
| `FrameGetting.OneEventTakes` | birds.py:53-87 | `Apply`, one event of the trace: a put appends its command to the pending ones. An iteration takes at most one pending command, from the front. The answers only grow, by one exactly when "get_frame" was taken. |
| `FrameGetting.ExecuteAppend` | birds.py:74-87 | `Execute` runs a trace event by event: running two traces one after the other is running their concatenation. |
| `FrameGetting.Iterate` | birds.py:74-87 | A stopped reader does nothing. A running one retains the newly decoded frame, or keeps the old one on a failed read or an exception. It takes at most the first pending command. It answers exactly when that command is "get_frame", and the answer is the retained frame. It stops exactly on "end". Any other command is taken and dropped. Earlier answers are never altered. |
| `FrameGetting.StoppedStaysStopped` | birds.py:86-87 | After "end", no further event changes the retained frame or the answers. Commands put later simply stay queued. |
| `FrameGetting.RunningAtEnd` | birds.py:74-87 | A reader still running after a trace was running before it and after the trace's first event. |
| `FrameGetting.SlotIsLastDecoded` | birds.py:73-81 | While the reader runs, its retained frame is the last frame decoded during the trace, or its earlier frame if no read succeeded. |
| `FrameGetting.NothingBeforeFirstDecode` | birds.py:73-85 | Until the first successful read, every answer to "get_frame" is `None`. |
| `FrameGetting.AnswersMatchRequests` | birds.py:82-87 | Commands are taken in order, no more than one per iteration. The commands still pending are a suffix of the earlier ones followed by the new puts. Exactly one answer is produced per "get_frame" taken. |
| `FrameGetting.GetFrameAnswersRetainedFrame` | birds.py:58-60 | With nothing else pending, "get_frame" followed by one iteration is answered with exactly the frame that iteration retains. |
| `FrameGetting.EndStopsAnswers` | birds.py:84-87 | When "end" is the pending command, the next iteration stops the reader. From then on no answer is added, whatever events follow. |
| `FrameGetting.FrameGetter.constructor` | birds.py:50-56 | A new getter has empty queues, no retained frame and a running reader. |
| `FrameGetting.FrameGetter.End` | birds.py:62-63 | `end` appends "end" to the command queue and changes nothing else. |
| `FrameGetting.FrameGetter.Capture` | birds.py:65-87 | The loop leaves the getter exactly as the state machine does after one iteration per read outcome. It stops early at "end", after which the remaining outcomes change nothing. |
| `FrameGetting.FrameGetter.GetFrame` | birds.py:58-60 | `get_frame` returns the frame retained after the reader's next read. The getter is left as the state machine leaves it, with the answer taken off the result queue. |
| `Inferencer.Inferencer.constructor` | birds.py:103-106 | The detection clock starts at construction time. |
| `Inferencer.Inferencer.CheckForBird` | birds.py:117-126 | `found` holds exactly when "bird" is among the labels. Then `delta` is the first clock read minus the old detection time, and the detection time becomes the second clock read. Otherwise `delta` is `None` and the detection time is unchanged. |
| `Inferencer.DetectionTimeMonotone` | birds.py:123-124 | With the clock read in order, the detection time never moves back and a reported delta is never negative. |
| `Inferencer.Check` | birds.py:117-126 | `found` holds exactly when "bird" is among the labels. Then `delta` is the first clock read minus the previous detection time, and the new detection time is the second clock read. Otherwise `delta` is `None` and the detection time is kept. |
| `Inferencer.NotifyExactly` | birds.py:154-156 | `ShouldNotify` applied to the result of `Check`: a photo is sent exactly when a bird is among the labels and more than 30 s passed since the previous detection. |
| `Inferencer.SteadyBirdIsSilent` | birds.py:121-125 | Bird sightings no more than 30 s apart, the first within 30 s of the clock's value, send no photo at all. |
| `Inferencer.SightingsAtZeroFiveThirtyFive` | birds.py:117-126 | With the clock started 31 s earlier, sightings at 0, 5 and 35 s send a photo only at 0. |
| `Controller.Initial` | birds.py:132-137 | The loop starts with no stream id, no getter and `c == 0`, which satisfies the invariant. |
| `Controller.Reconcile` | birds.py:143-149 | An unchanged id changes nothing and logs nothing. A changed id becomes the current one. Any existing getter is ended first, and a getter is started exactly when the new id is not `None`. The getter-matches-id invariant is kept. |
| `Controller.Step` | birds.py:138-165 | `c` advances by one modulo 60. The invariant is kept. A tick logs a poll first exactly when `c == 0`. On other ticks the stream id and the getter are unchanged. |
| `Controller.PollBlockEvents` | birds.py:140-149 | `PollBlock`, the `if c == 0` block: it polls once when `c == 0` and not at all otherwise. Its getter starts and ends are what `Reconcile` makes of the polled id. It never starts a getter while one exists or ends one when none exists. |
| `Controller.InspectEvents` | birds.py:151-163 | `Inspect`, the `if frame_getter is not None` block: it starts or ends no getter and polls nothing. With a getter present, its requests and photos happen while that getter exists. |
| `Controller.Run` | birds.py:138-165 | After one or more ticks, `c` has advanced by the number of ticks, modulo 60. |
| `Controller.RunAppendOne` | birds.py:138-165 | `Run` is the loop unrolled: running one more tick after a run appends that tick's step to the state and to the log. |
| `Controller.MainLoop.constructor` | birds.py:132-137 | The loop object starts in the initial state with an empty log and a fresh gate. |
| `Controller.MainLoop.Tick` | birds.py:139-165 | One pass of the loop body leaves the state and log exactly as `Step` says. |
| `Controller.MainLoop.PollStreamId` | birds.py:140-149 | The `c == 0` block logs the poll and then does what `Reconcile` says. |
| `Controller.MainLoop.InspectFrame` | birds.py:151-163 | With a getter present, the loop logs a frame request and runs the gate, and logs a photo when the gate allows it. Without a getter, nothing happens. |
| `Controller.MainLoop.Loop` | birds.py:138-165 | Running the loop over a sequence of tick inputs leaves the state and log exactly as `Run` says. |
| `Controller.RequestOnlyWithGetter` | birds.py:151-152 | A tick requests a frame exactly when a getter exists after its poll. |
| `Controller.LifecycleFollowsPolls` | birds.py:140-149 | The getter starts and ends in a run, and the getter state at its end, are exactly what the polled ids cause one after another. Nothing else has any effect on them. |
| `Controller.PollsEverySixtyTicks` | birds.py:137-165 | The stream id is polled on exactly the ticks whose number, counted from the initial `c`, is a multiple of 60. |
| `Controller.SameIdIsQuiet` | birds.py:143 | Polls that return the current id cause no lifecycle event and change nothing. |
| `Controller.RunWithSameIdIsQuiet` | birds.py:140-149 | Ticks whose polls would all return the current id start and end no getter, and they leave the stream id and the getter as they were. |
| `Controller.OfflineL1L1L1OfflineL2` | birds.py:143-149 | The ids None, L1, L1, L1, None, L2 cause exactly: start L1, end, start L2. |
| `Controller.RunWellFormed` | birds.py:143-152 | In any run, a getter is started only when none exists and ended only when one exists. A frame is requested only while a getter exists. The log's getter state at the end matches the loop's. So at most one getter exists at any time, and each is ended before the next starts. |
| `Controller.RunKeepsInv` | birds.py:137-165 | Every run keeps `c` below 60. It also keeps "a getter exists exactly when the stream id is not `None`". |

## Findings

| source | as written | input that shows it | evidently intended | confidence | as-written member | corrected member |
|---|---|---|---|---|---|---|
| birds.py:45-46 | The hours, minutes and seconds of the VOD offset are computed from `td.seconds` alone. That field is the part of the elapsed `timedelta` below one day, so the `days` are dropped. | A VOD that began 1 day and 5 s ago gives the link suffix `?t=00h00m05s`. | The offset of the current moment in the VOD: hours = whole elapsed time / 3600, minutes and seconds from the remainder. | medium, not executed | `TwitchInfo.DaysAreDropped` | `TwitchInfo.ElapsedHoursMinutesSeconds` |

`TwitchInfo.WrittenVideoUrl` is the link as written, and
`TwitchInfo.WrittenVideoUrlAfterOneDay` shows the discrepancy on it.
`TwitchInfo.CurrentVideoUrl` builds the link from the corrected split.
`TwitchInfo.HoursMinutesSeconds` stays as written and is proved to agree with
the corrected split on durations below one day
(`TwitchInfo.SplitsAgreeWithinADay`).

## Left out

- Twitch API calls, credential files, streamlink URL resolution and
  `cv2.VideoCapture` are foreign I/O (birds.py:14-22, 27, 39, 70-72, 76). Read
  outcomes, stream lists, VOD urls and elapsed times are inputs.
- The `videos[0]` lookup in `get_current_video_url` (birds.py:28) is left out.
  It raises `IndexError` on an empty list, and fetching the list is I/O.
- Parsing `created_at` with `strptime`, and the `utcnow()` subtraction
  (birds.py:29-32), are left out. The elapsed time is a `TimeDelta` input.
- `multiprocessing` is left out (birds.py:53-56). The two processes are modelled
  as one interleaved trace of events, each either a command put by the caller or
  one iteration of the reader. `empty()`/`get_nowait()` are taken to see every
  command put before the check. Cross-process timing is not modelled.
- The controller does not hold `FrameGetter` objects. It models a getter's
  existence as a flag and each `get_frame` call as a logged request. Which frame
  comes back is a separate matter, covered by `FrameGetting.FrameGetter.GetFrame`.
- `FrameGetting.FrameGetter.GetFrame`: requires that no other command is
  pending, that no answer is waiting, and that the reader still runs. That is
  the one-request-at-a-time use the main loop makes of it. Other calls are not
  modelled by this method. With an earlier answer already waiting or another
  "get_frame" pending, the source returns at once with that earlier answer
  (birds.py:59-60, 84-85); the trace lemmas `FrameGetting.AnswersMatchRequests`
  and `FrameGetting.Iterate` still describe those queues. For a stopped reader
  the source blocks for ever in `result_q.get()`, and blocking is not modelled.
- A reader process that dies before its loop is not modelled. For example,
  `streams["best"]` raises `KeyError` on an offline channel (birds.py:70-71).
  The main loop's next `get_frame` then blocks for ever (birds.py:60), and the
  stream id is never polled again.
- The YOLOv5 model, `fix_model` and the pandas/JSON conversion (birds.py:104-120)
  are opaque library calls. A detection is given by its list of labels.
- A `None` frame passed to the detector (birds.py:152-154) crashes inside a
  foreign call and is not modelled.
- `cv2.imwrite`, Telegram `send_photo` and the caption text (birds.py:96-99,
  157-163) are output I/O. Sending a photo appears as a `PhotoSent(delta)` log
  event.
- `time.time()` is a float and `time.sleep(1)` is a delay (birds.py:106,
  123-124, 139). Clock reads are integer inputs; the two reads in
  `check_for_bird` are separate parameters.
- `print` calls are logging and are left out.
- Each method of the `FrameGetter`, `Inferencer` and `MainLoop` classes is
  proved against the state machine or function beside it. The properties are
  proved about those functions.
