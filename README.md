# Slacking detector: image indexing and alarm state machine

This project models the two pieces of bookkeeping inside the slacking-detector
demo and proves what they promise.

- **Image capture** (`utils/collect_data.py`).
  - `get_next_index` scans a behavior's folder. It keeps the names that start with
    `{behavior}_` and in which `re.search(r'_(\d+)\.jpg$', name)` finds digits. It
    returns one past the largest index found, or 0.
  - `collect_data` then saves frames as `{behavior}_{timestamp}_{index}.jpg`, with
    consecutive indices from that start. It stops after `num_images` frames, on a
    failed read or on `q`; `p` pauses and resumes.
  - The folder is its listing (a sequence of names, `None` when it does not exist),
    and saving a frame appends its name.
  - The webcam is the sequence of its reads: a good frame carries the timestamp text
    it is saved under. Reading past the end is a failed read.
  - The keyboard is the sequence of raw key codes that `cv2.waitKey` returns, one
    per poll. Polling past the end sees no key.
- **Slacking alarm** (`test_trained_model.py`).
  - Each frame's detector results are reduced to boxes (class id, confidence).
  - In every result that has boxes, the most confident box is selected: the first
    one on a tie, as Python's `max` does. The last such result decides whether the
    frame is slacking (class 0) and what status text is shown.
  - A counter of consecutive slacking frames sets an alarm off at 20. The alarm lasts
    until the clock passes the activation time plus 3 seconds; `r` resets both.
  - The loop's variables are the fields of the class `SlackAlarm.Detector`, and
    `Step` is one pass of the loop. `Monitor` runs the loop over a sequence of
    frames; the clock is an integer number of seconds supplied with each frame.
  - `SlackAlarm.Next` is the pure transition that `Step` is proved against. The
    alarm's properties are lemmas about `Next` and `Run`, its fold over many frames.

Modules:
- `Wrappers`: `Option`.
- `Keyboard`: key codes and `& 0xFF`.
- `ImageNames`: the name format and the regex search.
- `Collect`: `get_next_index` and `collect_data`.
- `Detection`: per-frame box selection and verdict.
- `SlackAlarm`: counter and alarm, and the `Detector` class.

Details of the code that the model keeps:
- `$` in the search also matches just before one final newline, so
  `working_x_3.jpg\n` counts as index 3 (`ImageNames.SearchIndexComplete`).
- The underscore of the `{behavior}_` prefix also serves the search, so
  `working_7.jpg`, with no timestamp part, also counts as index 7
  (`ImageNames.ShortNameMatches`).
- The alarm is cleared at the first frame whose clock reading is past the end
  time, and `r` clears it at once.

## Model

| member | source | states |
|---|---|---|
| Keyboard.KeyCode | utils/collect_data.py:95 | `waitKey(1) & 0xFF` is the low byte of the raw code; "no key" (-1) reads as 255 |
| ImageNames.Decimal | utils/collect_data.py:83 | the index as the f-string writes it: digits only, no leading zero, and it reads back as the number |
| ImageNames.TrailingDigitsRun | utils/collect_data.py:28 | the run of digits `\d+` takes before `.jpg`: all digits, and preceded by a non-digit or the start |
| ImageNames.TrailingDigitsOf | utils/collect_data.py:28 | a digit run after a non-digit is exactly the trailing run |
| ImageNames.SearchIndexComplete | utils/collect_data.py:28-30 | every name of the form text, `_`, digits, `.jpg`, optional newline is found with the value of its digits |
| ImageNames.SearchIndexSound | utils/collect_data.py:28-30 | every name found has that form, and the value found is its digits' value |
| ImageNames.FilenameRoundTrip | utils/collect_data.py:82-83 | a name built for index i passes the prefix test and parses back to exactly i, whatever the timestamp text |
| ImageNames.ShortNameMatches | utils/collect_data.py:26-30 | `{behavior}_{digits}.jpg` is accepted too, with its digits as the index |
| Collect.NextAfter | utils/collect_data.py:23-33 | the running maximum plus one exceeds every index found |
| Collect.NextAfterAttained | utils/collect_data.py:23-33 | a positive result is one past an index that was found |
| Collect.NextIndexAboveAll | utils/collect_data.py:25-33 | the next index is strictly greater than the index of every name that passes the filter |
| Collect.NextIndexAttained | utils/collect_data.py:25-33 | when positive, the next index is exactly one past the index of some name that passes the filter (so it is max + 1) |
| Collect.NextIndexZeroIffNoMatch | utils/collect_data.py:23-33 | the next index is 0 if and only if no name passes the filter |
| Collect.NextIndexAppend | utils/collect_data.py:25-31 | one more name leaves the result unchanged when it fails the filter, and otherwise raises it to at least its index + 1 |
| Collect.GetNextIndex | utils/collect_data.py:21-33 | the scan with its running maximum from -1 returns the specified next index; a missing folder gives 0 |
| Collect.NextAfterDependsOnlyOnValues | utils/collect_data.py:31 | the maximum depends only on the set of indices found |
| Collect.NextIndexDependsOnlyOnMatches | utils/collect_data.py:25-31 | two listings with the same matching names give the same next index |
| Collect.NextIndexIgnoresOrder | utils/collect_data.py:25 | the order of the listing does not change the next index |
| Collect.NextIndexIgnoresUnmatched | utils/collect_data.py:26-29 | a name that fails the prefix test or the search has no effect wherever it is listed |
| Collect.Iterate | utils/collect_data.py:64-99 | one pass: paused reads nothing, so it neither saves nor fails a read; capturing, a bad read ends the run, a good one adds 1; `q` ends in either mode; `p` toggles the pause; other keys change nothing |
| Collect.CaptureRun | utils/collect_data.py:64-97 | the loop body repeated while fewer than `num_images` are saved: it finishes with exactly that many saved, and a read fails only before that number |
| Collect.CaptureRunQuitsAtFirstQ | utils/collect_data.py:94-97 | the run quits exactly when the last key it polled reads `q`, and no earlier poll read `q` |
| Collect.Saved | utils/collect_data.py:79-83 | the names a run saves: one per frame, in order |
| Collect.SavedIndices | utils/collect_data.py:79-83 | the k-th saved name parses back to `start_index + k` |
| Collect.NextIndexAfterConsecutive | utils/collect_data.py:23-33 | appending names with consecutive indices from the next index moves the next index past all of them |
| Collect.NextIndexAfterSaves | utils/collect_data.py:79-83 | after a run, the next scan of the folder resumes right after the last saved index |
| Collect.Capture | utils/collect_data.py:60-107 | the capture loop ends with the count, key polls and stop reason of the repeated loop body; it saves exactly the names of frames 0..count-1 under indices start..start+count-1; never more than `num_images`; it quits exactly at the first poll that reads `q`; without `p`/`q` and with enough good frames exactly `num_images` are saved |
| Collect.CollectData | utils/collect_data.py:35-111 | the folder gains exactly the saved names, numbered consecutively from the first free index, and the next scan resumes after them; a webcam that does not open saves nothing and polls no key; otherwise count, key polls and stop reason are those of the capture loop, which quits at the first `q` |
| Collect.ReportedLastIndex | utils/collect_data.py:111 | when something was saved, the report is the last saved index; otherwise it is below the start |
| Collect.ReportedLastIndexWhenNothingSaved | utils/collect_data.py:111 | with nothing saved, the report names -1 or an index that was already in the folder before the run |
| Collect.LastSavedIndex | utils/collect_data.py:111 | there is a last saved index exactly when something was saved |
| Collect.LastSavedIndexIsLastName | utils/collect_data.py:111 | the last saved index is the index of the last name the run added |
| Collect.CollectFiveIntoEmpty | utils/collect_data.py:64-88 | five images into an empty folder carry the indices 0, 1, 2, 3, 4 |
| Detection.Top | test_trained_model.py:47 | the selected box has the top confidence and every earlier box has a strictly lower one (first maximum on ties) |
| Detection.TopIsTheFirstMaximum | test_trained_model.py:47 | any position with those two properties is the selected one |
| Detection.Classify | test_trained_model.py:54-67 | the flag, set from the class id, and the status text, set from the class names, agree: slacking iff the status is "Slacking off"; the status is a class name, never "No Detection" |
| Detection.FrameVerdict | test_trained_model.py:38-67 | a frame is slacking iff its status is "Slacking off"; the status is "No Detection" or a class name |
| Detection.LastWithBoxesDecides | test_trained_model.py:41-67 | the last result that has boxes decides the frame, through its most confident box |
| Detection.NoBoxesNoDetection | test_trained_model.py:38-44 | a frame without boxes is not slacking and shows "No Detection" |
| SlackAlarm.Next | test_trained_model.py:70-116 | `r` zeroes the count and clears the alarm from any state; otherwise slacking adds 1 and anything else sets 0; an inactive alarm goes on iff the count reaches 20, with end time now + 3, and is not cleared in that frame; an active alarm keeps its end time and stays on iff now ≤ end time and no `r` |
| SlackAlarm.RunAppend | test_trained_model.py:30-116 | running frames in two parts is running them at once |
| SlackAlarm.CountWithoutBreak | test_trained_model.py:70-73 | while every frame is slacking and no `r` is pressed, the counter grows by exactly one per frame |
| SlackAlarm.CountIsTrailingRun | test_trained_model.py:70-116 | the counter is the number of frames after the last one that was not slacking or was followed by `r` |
| SlackAlarm.SlackingBelowThreshold | test_trained_model.py:70-80 | below 20, slacking frames only count: the alarm stays off |
| SlackAlarm.FiresOnlyAtFortiethFrame | test_trained_model.py:70-89 | 19 slacking, 1 working, 20 slacking: off after every frame before the last, on at the last with end time 42 |
| SlackAlarm.AlarmHoldsUntilEnd | test_trained_model.py:77-89 | once on, further frames up to the end time never move it or clear it, unless `r` |
| SlackAlarm.ExpiredAlarmFiresAgain | test_trained_model.py:70-89 | expiry leaves the counter alone, so continued slacking sets the alarm off again at the next frame |
| SlackAlarm.Detector.constructor | test_trained_model.py:25-28 | count 0, alarm off, end time 0 |
| SlackAlarm.Detector.Step | test_trained_model.py:38-116 | one pass of the loop: the new fields are the transition `Next` of the old ones under the frame's verdict; the status is the frame's; `q` ends the loop |
| SlackAlarm.Detector.Monitor | test_trained_model.py:30-116 | the loop over the frames read: the fields end as the run of all frames handled, up to and including the first one followed by `q` |

## Left out

- Webcam opening, reading and releasing, `imshow`, `putText`, `rectangle`, `destroyAllWindows`: device and window I/O. Frames, keys and the "webcam opened" flag are inputs.
- YOLO model loading and inference: an opaque foreign library. A box is a class id and a confidence. Its coordinates and the drawing are dropped.
- `winsound.Beep` and the alarm thread with its liveness check: foreign audio and concurrency.
- `time.time()` floats: the clock is an integer number of seconds per frame. The `time.sleep(delay)` between captures is dropped.
- Directory creation (`create_directories`, `os.makedirs`) and `cv2.imwrite`: filesystem side effects. The folder is a listing, and saving appends a name.
- `os.listdir` order is arbitrary. The model takes any listing, and `Collect.NextIndexIgnoresOrder` shows the order does not matter.
- `datetime.strftime`: the timestamp text comes with each frame as given text.
- Python's `\d` also matches non-ASCII digits: only ASCII digits are modelled.
- `argparse` and `main` of the capture tool, the console messages, and `test_collect_data.py`, which only displays camera frames.
- Collect.CollectData: when paused with no key left in the input, the real loop would poll forever. The model ends the run with `AwaitingKey` instead.
- SlackAlarm.Detector.Step: requires the class id of each result's selected box to be 0 or 1. The source looks up `class_names[cls]` for that box only, and fails with an index error for a larger id; that failure is not modelled. Class ids are `nat`, so negative ids, which Python would index from the end of `class_names`, are not modelled either.
- Float confidences: a box's confidence is a `real`, not a Python float. Comparisons of finite floats agree with those of reals; a NaN confidence, for which `max` behaves differently, is not modelled.

## Findings

| source | as written | input that shows it | evidently intended | confidence | as-written member | corrected member |
|---|---|---|---|---|---|---|
| utils/collect_data.py:111 | prints `start_index + count - 1` as the last saved index even when the run saved nothing | `num_images = 0`, or the first read fails, in a folder holding `working_20240101_120000_4.jpg`: it reports 4, a frame saved by an earlier run (and -1 in an empty folder) | no last saved index when nothing was saved | medium; not executed | Collect.ReportedLastIndexWhenNothingSaved | Collect.LastSavedIndexIsLastName |
