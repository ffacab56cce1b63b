# Eclipse stage logger: a verified model

The application is a Streamlit page. It takes a video of a solar eclipse and the wall-clock time at which the video starts. It samples about one frame per second and asks an object detector which class the frame shows: `Sun`, `Partial Solar Eclipse`, `Total Solar Eclipse` or `Annular Solar Eclipse`. When the class changes and a rule table names the change, it logs an astronomical stage. Each logged stage carries a name such as "Awal gerhana matahari sebagian", an `HH:MM:SS` time and the name of a snapshot file.

This project models the logic at the centre of that page in Dafny:

- **`Text`** (`text.dfy`): the pieces of Python's string and integer behaviour the page relies on.
  - `str.split` on one character, with empty pieces kept.
  - `str.replace` of one character by another.
  - The whitespace `int()` strips around its argument, then the sign, the digits and the single underscores it accepts. Below U+0080 only space and tab through carriage return are stripped. The separators U+001C to U+001F count as whitespace for `str.isspace`, but `int()` refuses them.
  - `f"{n}"` for natural numbers.
- **`Timestamps`** (`timestamps.dfy`):
  - `parse_time_string`, as `ParseTimeString`. It reads `SS`, `MM:SS` or `HH:MM:SS` into whole seconds, or returns the error the code raises.
  - `format_timestamp`, as `FormatTimestamp`. It writes a total number of seconds as zero-padded `HH:MM:SS`.
  - The proofs that the two round-trip: parsing a formatted stamp gives back its total.
- **`Detector`** (`detector.dfy`): the rule table `TRANSITIONS` and the per-sample detection loop.
  - `Step` handles one sample.
  - `Run` and `Detect` fold `Step` over the samples.
  - `DetectStages` is the loop itself, written over an array. It is proved to return exactly `Detect`.
  - A reference definition, `Changes`, states directly what gets logged: one change for each pair of consecutive detections whose classes differ and form a rule. `RunIsChanges` proves that the fold computes it.
- **`Examples`** (`examples.dfy`): worked inputs. They cover hours past one day, a negative total, and a short session.

Durations are whole seconds. The parser builds only whole-second `timedelta` values, and the formatter reads `int(td.total_seconds())`, so nothing is lost. A `timedelta` is modelled as its total number of seconds, checked against the type's range of ±999999999 days.

The model follows what the code accepts, which is more than the page's prompt suggests:

- **Start time.** The prompt (app.py:39) shows only `12:55`, `1:02:05` and `0:15`. The code (app.py:45-51) accepts any field `int()` accepts: signs, surrounding whitespace (as `int()` strips it), underscores between digits, and minutes or seconds of 60 or more. It hands the fields to `timedelta` unchecked, which reads them in base sixty (`0:75` is 75 seconds). A negative total formats with the sign on the hours only (`-5` seconds is `-1:59:55`).

## Model

| member | source | states |
|---|---|---|
| Text.IsSpace | app.py:45 | the characters `int()` strips: space and tab through carriage return below U+0080, and the non-ASCII characters `str.isspace` accepts; U+001C to U+001F are not among them |
| Text.DigitValue | app.py:45 | the value of a decimal digit is below 10 |
| Text.DigitChar | app.py:59 | the digit written for a value below 10 is a digit character whose value is that number |
| Text.Join | app.py:45 | `":".join(parts)`; it is the inverse `Text.Split` is stated against |
| Text.Split | app.py:45 | `time_str.split(":")` yields at least one piece, joining the pieces with the separator gives back the text, and no piece holds the separator |
| Text.SplitNoSeparator | app.py:45 | text without a colon is one field |
| Text.SplitAtFirstSeparator | app.py:45 | the first separator ends the first field; the rest is split independently |
| Text.SplitPair | app.py:45 | two colon-free pieces joined by a colon split back into exactly those two fields |
| Text.StripLeft | app.py:45 | dropping leading whitespace leaves a suffix of the text that is empty or starts with a non-space |
| Text.StripRight | app.py:45 | dropping trailing whitespace leaves a prefix of the text that is empty or ends with a non-space |
| Text.Strip | app.py:45 | what `int()` reads is no longer than the field and neither starts nor ends with whitespace |
| Text.StripLeftDropsSpace | app.py:45 | the leading characters `int()` skips are all whitespace |
| Text.StripRightDropsSpace | app.py:45 | the trailing characters `int()` skips are all whitespace |
| Text.StripUnpadded | app.py:45 | text that neither starts nor ends with whitespace is not changed by stripping |
| Text.DigitRunValue | app.py:45 | the base-10 value of a run of digits with single underscores between digits, or None; `Text.DigitRunValueMeaning` states that it accepts exactly those runs and reads each as its digits with the underscores left out |
| Text.DigitRunAccepted | app.py:45 | every non-empty text of digits and single underscores between digits is accepted, worth its digits read in base ten |
| Text.DigitRunValueMeaning | app.py:45 | a text is accepted exactly when it is a run of digits with single underscores between digits, and then its value is its digits read in base ten |
| Text.ParseInt | app.py:45 | `int(p)` for one field: strip, optional sign, digit run; None is the ValueError. `Text.ParseIntPadded` states that surrounding whitespace is ignored; with `Text.DigitRunValueMeaning` this gives the value for every accepted field, and the `Text.ParseInt…` lemmas state the signed and refused cases |
| Text.DigitRunShape | app.py:45 | a digit run `int()` accepts is digits, with underscores only between two digits |
| Text.ParseIntOfRun | app.py:45 | `int()` of an unsigned digit run is its value |
| Text.ParseIntOfDecimal | app.py:45 | `int()` reads back `f"{n}"`, also with one leading zero |
| Text.ParseIntOfNegative | app.py:45 | `int()` reads `-` followed by the digits of -n as n |
| Text.ParseIntOfPlus | app.py:45 | `int()` reads `+` followed by the digits of n as n |
| Text.StripLeftSpaces | app.py:45 | leading whitespace is stripped up to the first character that is not whitespace, and no further |
| Text.StripRightSpaces | app.py:45 | trailing whitespace is stripped back to the last character that is not whitespace, and no further |
| Text.ParseIntPadded | app.py:45 | `int()` reads a field with whitespace around it as it reads the field without it |
| Text.ParseIntNeedsDigit | app.py:45 | a field without any digit is a ValueError |
| Text.ParseIntRefusesStrayFirst | app.py:45 | a field whose first character is neither stripped, a sign nor a digit is a ValueError |
| Text.ParseIntRefusesSeparatorControl | app.py:45 | a number preceded by one of U+001C to U+001F is a ValueError, not padding |
| Text.Decimal | app.py:59 | `f"{n}"` is non-empty, all digits, has no leading zero unless n is 0, and reads back as n |
| Text.LeadingZero | app.py:59 | a padding zero does not change the value of a digit run |
| Text.DecimalLength | app.py:59 | `f"{n}"` is one character exactly when n < 10 |
| Text.Replace | app.py:111 | `replace` keeps the length and changes exactly the occurrences of one character |
| Text.ReplaceInjective | app.py:111 | replacing `:` by `-` loses nothing in a stamp: two stamps with the same image are equal |
| Timestamps.TimedeltaRangeInSeconds | app.py:47-51 | a `timedelta` holds totals from -999999999 days up to 86399999999999 seconds, one second short of 1000000000 days |
| Timestamps.CheckRange | app.py:47-51 | building the `timedelta` succeeds exactly inside that range and keeps the total; outside it the error is an overflow carrying the total |
| Timestamps.Collect | app.py:45 | either every conversion succeeded and the values are returned in order, or the first failed conversion is reported |
| Timestamps.ParseFields | app.py:45 | the list comprehension succeeds exactly when `int()` accepts every field; on success it returns one value per field in order, otherwise it returns the first refused field and its position |
| Timestamps.ParseFieldsValues | app.py:45 | fields that each convert are read as their values |
| Timestamps.ParseThreeFields | app.py:45 | three fields that convert are read as their three values |
| Timestamps.ParseTimeString | app.py:44-53 | a parsed start time is always inside the `timedelta` range; a refused field is one of the colon-separated pieces that `int()` refuses; a wrong count is the number of pieces, which is then above three |
| Timestamps.FieldSeconds | app.py:46-53 | success only with one to three fields and inside the range; otherwise a wrong count (exactly when there are not one to three fields) or an overflow |
| Timestamps.BaseSixty | app.py:46-51 | the fields read in base sixty; its contract is `Timestamps.BaseSixtyOfFields` |
| Timestamps.ParseTimeStringMeaning | app.py:44-53 | `parse_time_string` does three things, in this order: (1) reports a field `int()` refuses first; (2) reports a field count above three; (3) otherwise returns the base-sixty value of the fields, or an overflow outside the `timedelta` range |
| Timestamps.FieldSecondsMeaning | app.py:46-53 | the 1-, 2- and 3-field branches are seconds, minutes:seconds and hours:minutes:seconds; any other count is a "Format waktu tidak valid" error |
| Timestamps.BaseSixtyOfFields | app.py:46-51 | the base-sixty reading is `s`, `60m + s` and `3600h + 60m + s` |
| Timestamps.ParseOneField | app.py:44-47 | `SS` with a field that converts is that many seconds, range-checked |
| Timestamps.ParseSeconds | app.py:44-47 | `SS` written with plain digits is that many seconds, however many, range-checked |
| Timestamps.ParseTwoFields | app.py:44-49 | `MM:SS` with fields that convert is `60*MM + SS`, whatever their size or sign |
| Timestamps.ParseMinutesSeconds | app.py:44-49 | `MM:SS` written with plain digits is `60m + s`; the seconds are not bounded by 60 |
| Timestamps.Clock | app.py:56-58 | the two `divmod`s give minutes and seconds in `[0, 60)` and `3600h + 60m + s == total` |
| Timestamps.ClockUnique | app.py:57-58 | those are the only hours, minutes and seconds with that property |
| Timestamps.PadTwo | app.py:59 | `{n:02}` is at least two characters: digits, after a minus sign for a negative n; no leading zero beyond the padding |
| Timestamps.PadTwoCases | app.py:59 | `{n:02}` adds one zero to a single digit, a minus sign to a negative number, and nothing otherwise |
| Timestamps.PadTwoRoundTrip | app.py:59 | `int()` reads back every number `{n:02}` writes |
| Timestamps.FormatTimestamp | app.py:55-59 | `format_timestamp`; its contract is stated by `Timestamps.FormatTimestampShape`, `Timestamps.FormatTimestampFields` and the round trip `Timestamps.FormatThenParse` |
| Timestamps.FormatTimestampShape | app.py:55-59 | a stamp is at least eight characters and does not start with a colon; after the first character it is all digits and colons, and the first character is a digit exactly when the total is not negative (otherwise the minus sign) |
| Timestamps.FormatTimestampFields | app.py:55-59 | the stamp is the padded hours, minutes and seconds of the total; minutes and seconds are two digits; hours are not reduced modulo 24 |
| Timestamps.SplitFormatTimestamp | app.py:59 | a stamp splits on `:` into exactly its three padded fields |
| Timestamps.FormatThenParse | app.py:44-59 | the round trip: `parse_time_string(format_timestamp(t)) == t` for every total in the `timedelta` range, negative ones included |
| Timestamps.FormatTimestampInjective | app.py:55-59 | two totals in range with the same stamp are equal |
| Detector.StepWithTransitions | app.py:101-103 | with the application's table, an event is emitted exactly when there is a previous class and the pair is a rule: the `current_class != prev_class` test never decides anything |
| Detector.TransitionsHaveNoSelfPair | app.py:22-31 | no rule is keyed by a class followed by itself |
| Detector.TransitionsAreReversible | app.py:22-31 | the reverse of every rule is a rule too, so each "Awal" stage has its "Akhir" stage |
| Detector.TransitionsPassThroughPartial | app.py:22-31 | every rule enters or leaves the partial eclipse |
| Detector.TransitionsNameStagesOnce | app.py:22-31 | different rules name different stages |
| Detector.SnapshotName | app.py:111 | the file name `f"{stage.replace(' ', '_')}_{stamp.replace(':', '-')}.jpg"`; its contract is stated by `Detector.SnapshotNameShape`, `Detector.SnapshotNameParts` and `Detector.SnapshotNamesDistinct` |
| Detector.SnapshotNameShape | app.py:111 | the snapshot name is `len(stage) + len(stamp) + 5` long, has `_` right after the stage, and ends in `.jpg`; it has no space when the stamp has none, and no colon when the stage has none |
| Detector.SnapshotNameParts | app.py:111 | the stage and the stamp can be read back from the name with spaces and colons replaced |
| Detector.SnapshotNamesDistinct | app.py:106-113 | one stage detected at two different times never gets the same snapshot file name, so `imwrite` does not overwrite an earlier snapshot |
| Detector.MakeEvent | app.py:106-114 | the tuple appended for a stage at a moment: the stage, the stamp of that moment, and the snapshot name built from those two; what the stamp and name mean is stated by `Detector.EventTimeReadsBack` and `Detector.EventsApartInTime` |
| Detector.EventTimeReadsBack | app.py:44-59 | an event's time, parsed back with `parse_time_string`, is the moment it was logged at, for every moment in the `timedelta` range |
| Detector.EventsApartInTime | app.py:106-114 | two events of one stage at different moments have different times and different snapshot names |
| Detector.ChangeEvent | app.py:106-108 | the moment of a change is the start time plus the sample's elapsed seconds |
| Detector.Events | app.py:114 | one appended tuple per change |
| Detector.EventAt | app.py:114 | the tuple at position i of the log is the one made from the i-th change |
| Detector.EventsAppend | app.py:114 | a new change appends exactly its tuple to the log |
| Detector.Run | app.py:96-116 | the fold of `Step` over the samples from no previous class and an empty log; its contract is `Detector.RunIsChanges` |
| Detector.Detect | app.py:96-116 | the events of the fold's changes; `Detector.DetectStages` is proved to compute it |
| Detector.Changes | app.py:101-104 | the reference: one change for each pair of consecutive detections whose classes differ and form a rule; `Detector.RunIsChanges` equates it with the fold |
| Detector.Step | app.py:96-116 | one sample, stated both ways: a sample with no detection changes nothing; a detection becomes `prev_class`; an event is emitted exactly when `prev_class` is set, differs from the new class and the pair is a rule; the event is the rule's stage at the sample's second |
| Detector.DetectStages | app.py:86-118 | the loop's `saved_images` is exactly `Detect` of all the samples; the loop invariant keeps `prev_class` and the log equal to the fold over the samples seen so far |
| Detector.Detections | app.py:96-99 | samples with a detection, in order; there are no more of them than samples |
| Detector.RunIsChanges | app.py:101-116 | after any samples, `prev_class` is the class of the last detection, and the changes are exactly the rule-named changes between consecutive detections, in order |
| Detector.ChangesAppend | app.py:101-104 | a new detection adds at most the change from the previous detection's class |
| Detector.RepeatOrFirstLogsNothing | app.py:101-116 | the first detection and a repeated class log nothing, but still set `prev_class` |
| Detector.OnlyDetectionsMatter | app.py:96-116 | samples without a detection change neither `prev_class` nor the log |
| Detector.ChangesBound | app.py:101 | n detections give at most n - 1 changes, and no detections give none |
| Detector.SavedBound | app.py:101-114 | the log never holds more events than the number of detections minus one |
| Detector.ChangesAreRuleStages | app.py:103-104 | every change names a stage from the rules |
| Detector.SavedStagesAreTransitions | app.py:103-114 | with the application's table, every logged stage is a value of `TRANSITIONS` |
| Detector.SavedEventsAreStamped | app.py:106-114 | the log holds one event per change, in order, each with the change's stage, the stamp `format_timestamp(start + seconds)` and the snapshot name built from both |
| Detector.ChangesAtSamples | app.py:106 | every change is timed at the second of one of the samples |
| Detector.RunAppendsOnly | app.py:114 | later samples only append to the changes |
| Detector.DetectAppendsOnly | app.py:114 | later samples only append to the log: earlier entries stay, in order |
| Detector.EventsPrefix | app.py:114 | the events of a prefix of the changes are a prefix of the log |
| Examples.FormatPastOneDay | app.py:57-59 | 90000 seconds is `25:00:00`: hours are not wrapped at a day |
| Examples.FormatNegative | app.py:57-59 | -5 seconds is `-1:59:55`: floor division puts the sign on the hours only |
| Examples.StartAtEdgeOfRange | app.py:107 | the largest start time that parses, 86399999999999 seconds, leaves the `timedelta` range one second into the video |
| Examples.ThereAndBack | app.py:101-116 | for classes a, b whose pairs both are rules, the detections a, nothing, b, b, a log the change into b at second 2 and back at second 4 |
| Examples.PartialEclipseSession | app.py:22-31 | with the application's table, Sun, nothing, partial, partial, Sun logs "Awal gerhana matahari sebagian" at 2 and "Akhir gerhana matahari sebagian" at 4 |

## Left out

- The Streamlit page is not modelled. This covers the title, the file uploader, the text input, the progress bar, the info and success messages, and the table and images of the results at the end (app.py:33-39, 83-84, 119, 124 onwards). Only the progress bar affects what is logged, as the line on frame sampling below explains.
- The YOLO model is not modelled: loading it, running it on a frame, and picking the most confident box with `argmax` (app.py:11-17, 94-99). Each sample carries the detected class as an input instead, `None` when no box was found. Errors raised inside the detector are not modelled.
- OpenCV, the uploaded file and the temporary files are not modelled: `VideoCapture`, reading the frame count and rate, `cap.read`, `imwrite`, `release`, and writing and removing the temporary video (app.py:71-77, 86-89, 113, 121-122). The samples are given as an array instead.
- Frame sampling is left out: `frame_count / fps`, the one-frame-per-second test and `round` are floating point (app.py:91-93, 106). Each sample carries the whole number of seconds the code computes for it. Two divisions can end the run early, and the model has neither. A frame rate of 0 makes `frame_count / fps` raise ZeroDivisionError at the first frame (app.py:91). The progress update divides by the frame count OpenCV reports (app.py:119). When that count is 0, it raises ZeroDivisionError once the first frame is done. When it is negative, `st.progress` refuses the negative fraction. None of these lines is inside a `try`, so the page stops during or just after the first frame and logs nothing, since a first sample never logs a change. The model, given the same samples, logs every change among them.
- The bare `except`, `st.error` and `st.stop` around the parser are left out (app.py:65-69). The parser instead returns an error value, naming the field, the count or the total that caused it.
- Text.ParseInt: does not accept non-ASCII decimal digits (Arabic-Indic, full-width and the like), which Python's `int()` does. A field written with them is a ValueError in the model. The limit of 4300 digits that `int()` enforces is not modelled either. Both are left out because the model keeps to ASCII text.
- Detector.ChangeEvent: does not model the OverflowError that `start_time_delta + timedelta(seconds=...)` raises when the sum leaves the `timedelta` range (app.py:107). That line is outside the `try`, so the page crashes there instead of reporting a format error. The model stamps the sum unconditionally. Only a start time within the video's length of the range's edge overflows. `Examples.StartAtEdgeOfRange` shows the largest accepted start, 86399999999999 seconds, overflowing one second in.
- The snapshot's path is only its file name: `os.path.join(tempfile.gettempdir(), ...)` depends on the environment (app.py:112).
- Detector.DetectStages: takes the rule table as a parameter, where the code reads the global `TRANSITIONS`. The application's own table is `Detector.Transitions`, and the lemmas about it (`SavedStagesAreTransitions`, `PartialEclipseSession`) use it.
