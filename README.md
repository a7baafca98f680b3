# Exam-proctor incident logic in Dafny

A model of the decision logic of a desktop exam-proctoring aid. The
application watches a webcam and labels every frame: NORMAL, HANDS_OFF_TABLE
or CAMERA_BLOCKED. To choose a label it checks whether hands are visible and
how far the frame differs from a registered picture of the empty table. It
then turns the stream of labels into timed incidents. Each incident gets a
severity (GOOD, LOW, HIGH, CRITICAL). A bad episode escalates once to a
warning notification and once to a CRITICAL record with an evidence
snapshot.

Modules:

- `Config` (`config.dfy`): the two thresholds, 5,000,000 for table
  similarity and 5.0 s for the warning.
- `Detector` (`detector.dfy`): the presence classifier.
  - `Classify` is the status decision.
  - `SumAbsDiff` is the summed absolute grayscale difference, and
    `AbsDiffSum` is the loop that computes it.
  - The class `DetectionService` holds the reference image.
    `SetReferenceFrame` stores a copy, and `ProcessFrame` returns the label.
- `Incidents` (`incidents.dfy`): the incident state machine as values.
  - A `Machine` is the status, the start time of the episode and the alert
    stage.
  - `Step` handles one frame and returns the next `Machine` and the effects
    of that step: `Log`, `Beep`, `Notify` and `SaveEvidence`.
  - `Run` handles a sequence of frames.
  - The lemmas cover single steps and whole episodes.
- `MainWindow` (`main_window.dfy`): the class `ProctorApp`.
  - It has the session fields (`running`, `registered`, `currentStatus`,
    `statusStart`, `alertStage`, `frameCache`) and the detector.
  - Its methods are the start, register and stop buttons, one poll-loop tick
    and `HandleStatusChange`. `HandleStatusChange` and `VideoTick` are
    proved equal to `Incidents.Step`. The button methods state their new
    fields directly.
  - `Tag` is the colour tag of a log row.

Modelling choices:

- Time is a `real` number of seconds, passed in as `now`. The source reads
  the clock three times inside one call of `handle_status_change`. The model
  uses one `now` for all three reads.
- Frames are flattened grayscale images: an `array` of `Pixel`, where a
  pixel is an integer from 0 to 255. Every frame has 720 × 540 pixels,
  because the camera resizes each frame to that size. The largest possible
  score is therefore 255 × 388,800. That fits numpy's summation type, so
  unbounded integers model the sum exactly.
- The student id is a parameter of each step. The source reads the entry
  field at the moment each record is written.
- The snapshot name that the audit sink returns is also a parameter of each
  step.
- One would expect starting an exam and registering the table to reset the
  whole incident state to {NORMAL, now, 0}. The code does something else,
  and the model follows the code:
  - `register_table` does not reset `alert_stage`.
  - The assignments of `start_exam` itself (lines 119-120) leave the
    incident state alone. Its call into the poll loop (line 127) can then
    run a first `handle_status_change`; in the model that first tick is a
    separate `VideoTick`.

  `StaleStageIsHarmless` proves that the stale stage never changes what a
  step from NORMAL emits. `StaleStageIsHarmlessOverRun` proves the same for
  any sequence of frames.

## Model

| member | source | states |
|---|---|---|
| `Detector.LabelInjective` | modules/detector.py:31-42 | Two statuses have equal label strings exactly when they are equal. So the source's string comparisons of labels are status comparisons. |
| `Detector.SumAbsDiff` | modules/detector.py:38 | The score of two equal-size images is non-negative and at most 255 times the pixel count. |
| `Detector.SumAbsDiffSymmetric` | modules/detector.py:38 | The score does not depend on which image is the reference. |
| `Detector.SumAbsDiffZeroIff` | modules/detector.py:38 | The score is 0 exactly when the frame equals the reference. |
| `Detector.Classify` | modules/detector.py:31-42 | When not monitoring, or with no reference, the label is NORMAL. With hands visible it is NORMAL. When monitoring with a reference and no hands, it is HANDS_OFF_TABLE exactly when diff < 5000000 and CAMERA_BLOCKED exactly when diff ≥ 5000000. |
| `Detector.IdenticalFrameIsHandsOff` | modules/detector.py:38-42 | A frame identical to the reference, seen without hands while monitoring, is classified HANDS_OFF_TABLE. |
| `Detector.AbsDiffSum` | modules/detector.py:36-38 | One pass over the pixels returns exactly the summed absolute difference. |
| `Detector.DetectionService.constructor` | modules/detector.py:7-10 | A new detector has no reference. |
| `Detector.DetectionService.SetReferenceFrame` | modules/detector.py:12-14 | The stored reference is a freshly allocated array with the frame's contents. |
| `Detector.DetectionService.FrameStatus` | modules/detector.py:31-42 | The label of a frame against the stored reference. It is NORMAL when not monitoring, with no reference, or with hands visible. Otherwise it is HANDS_OFF_TABLE exactly when the score against the reference is below 5000000, and CAMERA_BLOCKED exactly when the score is 5000000 or more. A frame equal to the reference is always HANDS_OFF_TABLE. |
| `Detector.DetectionService.ProcessFrame` | modules/detector.py:31-44 | The returned label is `Classify` applied to the monitoring flag, the presence of a reference, the hands signal and the score against the reference. The score is only computed when the decision needs it. |
| `Detector.ReferenceSurvivesFrameReuse` | modules/detector.py:12-14 | After registration, overwriting the caller's frame leaves the reference equal to the frame as it was registered. |
| `Incidents.OutgoingSeverity` | ui/main_window.py:200 | Severity is GOOD exactly when the outgoing status was NORMAL. For a bad status it is HIGH exactly when the episode lasted over 10 s, else LOW. It is never CRITICAL. |
| `Incidents.Transition` | ui/main_window.py:194-210 | Without a change nothing happens. On a change the state becomes (new label, now, 0). Every effect is a non-CRITICAL record of the outgoing status or a beep, and there are at most two. On a change, exactly one record is written when the outgoing episode lasted over 1.0 s: the outgoing status, its duration, its severity and evidence "N/A". Otherwise no record is written. There is exactly one beep when the label changed to something other than NORMAL, and otherwise none. |
| `Incidents.Escalate` | ui/main_window.py:220-230 | The status and start are kept. The stage either stays or rises by exactly one, and it rises exactly when there are effects. A rise needs stage 0 or 1 and an episode past 5.0 s. In NORMAL nothing happens. |
| `Incidents.Step` | ui/main_window.py:192-230 | After a step the status is the new label. The alert stage stays within 0..2. |
| `Incidents.StepOnChange` | ui/main_window.py:194-210 | On a label change the state becomes (new label, now, 0). If the outgoing episode lasted over 1.0 s, exactly one record is logged: the outgoing status, the elapsed time, its severity and evidence "N/A". Otherwise nothing is logged. A change never warns, snapshots or records CRITICAL. |
| `Incidents.StepBeep` | ui/main_window.py:194-206 | `Beep` stands for `play_beep` only. A step emits it once if the label changed to something other than NORMAL, and otherwise not at all. The warning's own sound belongs to `Notify`. |
| `Incidents.StepWithinEpisode` | ui/main_window.py:220-230 | Without a change, the start is kept and the stage never decreases. The warning fires exactly in a bad status at stage 0 past 5.0 s: it is the only effect and the stage becomes 1. The snapshot and CRITICAL record fire exactly at stage 1 past 10 s: they are the only effects and the stage becomes 2. The two never fire in the same step. Otherwise nothing changes. |
| `Incidents.StepNormalNeverEscalates` | ui/main_window.py:221-222 | A step whose label is NORMAL never warns, saves evidence or records CRITICAL. |
| `Incidents.StepEvidenceBacked` | ui/main_window.py:226-228 | Every CRITICAL record of a step directly follows a snapshot and carries that snapshot's name. |
| `Incidents.EpisodeAccounting` | ui/main_window.py:220-230 | Over any number of frames in one episode: the start is kept; the stage only grows within 0..2; nothing beeps; there is exactly one warning if the stage passed 1 and one CRITICAL record if it passed 2, and none otherwise. |
| `Incidents.AtMostOneAlertPerEpisode` | ui/main_window.py:223-230 | An episode produces at most one warning and at most one CRITICAL record, however many frames arrive. |
| `Incidents.NormalEpisodeIsSilent` | ui/main_window.py:194-222 | Frames that stay NORMAL produce no effect and leave the state unchanged. |
| `Incidents.ReachesWarning` | ui/main_window.py:223-225 | In a bad episode, a frame handled past 5.0 s leaves the stage at 1 or more. |
| `Incidents.ReachesCriticalFromWarned` | ui/main_window.py:226-230 | In a warned bad episode, a frame handled past 10 s leaves the stage at 2. |
| `Incidents.ReachesCritical` | ui/main_window.py:223-230 | In a bad episode, a frame past 5.0 s followed by a frame past 10 s leaves the stage at 2, whatever the stage was at the start. |
| `Incidents.WarningFiresOnce` | ui/main_window.py:223-225 | A bad episode that starts at stage 0 and has any frame past 5.0 s warns exactly once, at any frame rate. |
| `Incidents.CriticalFiresOnce` | ui/main_window.py:223-230 | A bad episode that has a frame past 5.0 s and a later frame past 10 s produces exactly one CRITICAL record. |
| `Incidents.Run` | ui/main_window.py:153-190 | Successive frames handled one after another. No frames leave the state unchanged and emit nothing. Otherwise the final status is the last frame's label. The stage stays within 0..2. |
| `Incidents.RunEvidenceBacked` | ui/main_window.py:226-228 | Over any run, every CRITICAL record directly follows the snapshot whose name it carries. |
| `MainWindow.ProctorApp.constructor` | ui/main_window.py:28-34 | A new window is not running, not registered and has no cached frame. Its incident state is (NORMAL, now, 0). |
| `MainWindow.ProctorApp.StartExam` | ui/main_window.py:112-121 | An empty student id is refused, and so is a camera that does not open; neither refusal changes anything. Otherwise the session is running and unregistered. The incident state is untouched in every case. |
| `MainWindow.ProctorApp.RegisterTable` | ui/main_window.py:131-136 | With no cached frame, nothing changes. Otherwise the cached frame is copied as the reference, `registered` is set, the status becomes NORMAL and the start becomes `now`. The alert stage is kept. |
| `MainWindow.ProctorApp.StopExam` | ui/main_window.py:142-143 | `running` is cleared and nothing else changes. |
| `MainWindow.ProctorApp.HandleStatusChange` | ui/main_window.py:192-230 | The new fields and the emitted effects are exactly those of `Incidents.Step`. The session invariant is kept. |
| `MainWindow.ProctorApp.VideoTick` | ui/main_window.py:153-164 | When stopped or without a captured frame, nothing happens. Otherwise the frame is cached and classified, monitoring only when registered. The label then goes through `Incidents.Step`. |
| `MainWindow.StaleStageIsHarmless` | ui/main_window.py:131-136 | From NORMAL, what a step emits does not depend on the alert stage left over from registration. A change to a bad status also yields the same state. |
| `MainWindow.StaleStageIsHarmlessOverRun` | ui/main_window.py:131-136 | From NORMAL, the effects of any sequence of frames do not depend on the alert stage left over from registration. |
| `MainWindow.Tag` | ui/main_window.py:239-240 | A row is tagged 'danger' exactly when its upper-cased severity is HIGH or CRITICAL, and 'safe' exactly when it is GOOD. Any other severity is untagged. |
| `MainWindow.Upper` | ui/main_window.py:239 | Upper-casing keeps the length and upper-cases each character. |
| `MainWindow.TagIgnoresCase` | ui/main_window.py:239-240 | The row tag is the same for a severity string and its upper-cased form. |
| `MainWindow.TagOfSeverity` | ui/main_window.py:239-240 | HIGH and CRITICAL rows are tagged 'danger', GOOD rows 'safe', and LOW rows get no tag. |
| `MainWindow.FlickerScenario` | ui/main_window.py:192-210 | A NORMAL → CAMERA_BLOCKED → NORMAL flicker within 0.4 s logs nothing and beeps once. |
| `MainWindow.EscalationScenario` | ui/main_window.py:192-230 | A 12 s HANDS_OFF_TABLE episode after 2 s of NORMAL gives these effects in order: a GOOD record, a beep, a warning at 5.5 s, a snapshot with a CRITICAL record at 10.5 s, and a HIGH record of 12 s. |

## Left out

- Hand detection is a foreign library call. Whether hands are visible is an input.
- The colour-to-gray conversion is a weighted library conversion. Frames are given already in grayscale, and the reference is kept as a grayscale copy.
- Images are flattened to one sequence of pixels. Row and column layout has no effect on the sum.
- Camera capture, resizing and release are device I/O. Whether the camera opens and whether a frame was captured are inputs.
- The audit sink (CSV rows, header, timestamps, image files, reading recent rows) is filesystem I/O. Records and snapshots are emitted effects. The snapshot name is an input.
- Record and snapshot writes are assumed to succeed. In the source, an exception from `log_incident` (ui/main_window.py:201, :228) or `save_evidence` (:227) aborts `handle_status_change`. At :201 this happens before the state update at 208-210. The exception also stops the poll loop, because the reschedule at :190 is never reached, while `running` stays true. The model always completes the step.
- Widgets, colours, button states and the list refresh are presentation only. The landmark and text overlays are not modelled. They are not presentation only, because they are drawn in place into the cached frame (see the next line).
- MainWindow.ProctorApp.RegisterTable: in the source the cached frame is the same array that hand landmarks and the setup text "POINT AT TABLE -> PRESS REGISTER" are drawn into. So the stored reference carries that overlay, plus landmarks if hands were visible in the last setup frame. An unchanged scene therefore does not score 0 against it. In the model, the reference, and `frameCache` in `MainWindow.ProctorApp.VideoTick`, are the raw captured frame.
- MainWindow.ProctorApp.StartExam: the source calls the poll loop at the end of `start_exam`. Its first frame can run `handle_status_change` inside the start call, for example logging a bad status left from a stopped session under the new student id. The model leaves that first tick to a following `VideoTick`.
- The 10 ms rescheduling of the poll loop is host scheduling. `VideoTick` models one tick; `Run` models a sequence of frames.
- Desktop notification and the beep sounds are best-effort calls whose failures are swallowed. They are emitted effects. `Notify` stands for the notification together with its own beep; `Beep` is only the beep on entering a bad status.
- Floating-point time and the formatting of durations to one or two decimals: time is an exact `real`.
- MainWindow.Upper: upper-cases ASCII letters only, not the full Unicode case mapping of the source's `upper()`. Every severity the application writes is ASCII.
- The path constants and window settings in the configuration are filesystem and UI settings.
