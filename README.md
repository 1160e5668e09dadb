# rustrhythm core, modelled in Dafny

rustrhythm is a four-lane rhythm game. It reads a StepMania `.sm` chart and
turns each difficulty's note rows into timed arrows. Notes scroll towards a
judgment line, and key presses score them. This project models the game's
logic without graphics, audio or I/O:

- **Chart parsing** (`parse_sm_file`, `parse_tag_value`, `beat_to_time`).
  - Tags are read as the trimmed text between a tag and the next `;`.
  - The `#BPMS` and `#STOPS` lists become ascending schedules.
  - The line loop groups note rows into measures and difficulties, and
    collects each chart's difficulty label.
  - Rows are read into cells, and each cell emits tap or hold arrows with
    times from `beat_to_time`.
- **The game state** (`GameState::new` and `start`). `new` stamps every
  arrow's spawn time `speed` seconds before its hit time. `start` activates
  one difficulty and schedules the start of play.
- **One frame of play** (`main`):
  - key events update the sets of pressed and held lanes;
  - the clock reading saturates at zero;
  - the `retain` pass judges every active arrow: a hit, a held long note, a
    miss or still on its way. It keeps the score, the combo and the lanes
    already taken.
- **The difficulty menu** (`choose_difficulty`): Up and Down move a
  selection clamped to the list, and Return chooses.

Files:

- `wrappers.dfy`: `Option`.
- `text.dfy`: the Rust `str` operations the parser uses, including
  `parse::<f64>` on finite decimal text.
- `timing.dfy`: schedules, `BeatTime` and the `BeatToTime` loop.
- `chart.dfy`: `parse_sm_file` and its parts.
- `session.dfy`: the `GameState` class.
- `play.dfy`: input, judgment, the frame and the menu.

Modelling choices:

- Floating point is modelled as exact `real` arithmetic.
- `Instant` readings are `real` seconds, passed in as parameters.
- Event queues are sequences.
- Where the Rust code would panic, the model has a precondition: indexing
  `last_long_start` beyond lane 3 (`HoldsFit`), slicing past the end of the
  text after `#BPMS`/`#STOPS` (`DeclarationInBounds`), or Down in an empty
  menu.
- Further preconditions stand where exact arithmetic needs them:
  - `beat_to_time` requires every tempo to be non-zero, and the model
    rejects any chart with a zero tempo, even one whose notes never reach
    it;
  - judging requires `Placeable`: no arrow spawns at its own hit time, so
    the progress division is defined. `main` fixes the speed at 1.5
    (src/main.rs:25), and `Session.SpawnsAheadPlaceable` shows that any
    non-zero speed guarantees it.
- The numeric casts of the hold-note rectangle are written out explicitly:
  - `f64 as i32` and `f64 as u32` saturate and truncate toward zero;
  - `u32 as i32` and `i32` subtraction wrap.

## Model

| member | source | states |
|---|---|---|
| Text.Trim | src/game_state.rs:264 | the result is no longer than the input and neither starts nor ends with Unicode white space |
| Text.TrimIsInfix | src/game_state.rs:264 | the trimmed text is a contiguous slice of the input, starting after the leading white space |
| Text.TrimLeading | src/game_state.rs:264 | everything before that slice is white space |
| Text.TrimTrailing | src/game_state.rs:264 | everything after that slice is white space |
| Text.TrimWithin | src/game_state.rs:126 | trimming only removes characters: every character of the result occurs in the input |
| Text.Find | src/game_state.rs:261 | a found index is the first place the pattern occurs; no result means it occurs nowhere |
| Text.FindChar | src/game_state.rs:263 | searching for one character gives the first index holding it, or none when it does not occur |
| Text.Split | src/game_state.rs:108-109 | at least one piece, no piece contains the separator, and joining the pieces with the separator gives back the text |
| Text.SplitJoin | src/game_state.rs:109 | splitting separator-free parts joined by the separator gives back exactly those parts |
| Text.SplitWithin | src/game_state.rs:108 | every character of every piece occurs in the split text |
| Text.Lines | src/game_state.rs:139 | `lines()` gives no line for empty text, at least one otherwise, and no line contains `\n` |
| Text.LinesJoin | src/game_state.rs:139 | for text without `\r`, joining the lines with `\n` (plus the final newline, if any) gives back the text |
| Text.Remove | src/game_state.rs:108 | `replace("\n", "")` is the identity on text without the removed character |
| Text.RemoveWithin | src/game_state.rs:108 | the result holds no occurrence of the removed character, is never longer than the input, and keeps only characters of the input |
| Text.RemoveConcat | src/game_state.rs:108 | removing from a concatenation removes from each part |
| Text.RemoveOne | src/game_state.rs:108 | a single character is dropped exactly when it is the removed one, and kept otherwise |
| Text.TrimEndMatches | src/game_state.rs:157 | the result is a prefix of the input with no trailing `:`, and only `:` characters were removed |
| Text.ParseReal | src/game_state.rs:100-102 | empty text does not parse, and text that parses holds only digits, signs, `.`, `e` and `E`, so text with white space does not parse |
| Text.ParseShowNat | src/game_state.rs:100-102 | parsing the decimal rendering of any natural number gives back that number |
| Text.ParseDecimal | src/game_state.rs:113 | text with digits, a point and digits parses to the whole part plus the fraction divided by ten to the power of the fraction's length |
| Text.ParseDigitsPointDigits | src/game_state.rs:113 | the same value, stated for text split into its digits before and after the point |
| Text.ParseShowDecimal | src/game_state.rs:113 | the rendering `a.b` of two naturals parses to `a + b / 10^len(b)`, e.g. `120.000` to 120 |
| Text.ParseExponentDigits | src/game_state.rs:113 | a mantissa of digits and a point, then `e` and exponent digits, parses to the mantissa's value times ten to the exponent, e.g. `1.5e2` to 150 |
| Text.ParseNegative | src/game_state.rs:100 | a leading `-` negates the parsed value and fails exactly when the unsigned text fails |
| Timing.Insert | src/game_state.rs:115 | inserting into an ascending schedule keeps it ascending, maps the beat to the new value (overwriting), and leaves every other beat unchanged |
| Timing.BeatToTime | src/game_state.rs:230-257 | the loop over the sorted tempo changes, then the stops, computes `BeatTime`: the walk through tempo changes plus every stop at or before the beat |
| Timing.DefaultTempo | src/game_state.rs:231-233 | with no tempo changes and no stops, time is the offset plus half a second per beat (120 bpm) |
| Timing.FourBeatsAt120 | src/game_state.rs:243-256 | four beats at a 120 bpm tempo from beat 0 take two seconds |
| Timing.LaterEntriesIgnored | src/game_state.rs:240-242 | tempo changes and stops after the beat do not affect its time |
| Timing.PauseAddsFullDuration | src/game_state.rs:250-254 | a stop at or before the beat adds its whole duration, and a later stop adds nothing |
| Timing.WalkMonotone | src/game_state.rs:238-246 | with positive tempos, the tempo walk never goes back in time as the beat grows |
| Timing.PauseMonotone | src/game_state.rs:250-254 | with non-negative stops, the stop total never decreases as the beat grows |
| Timing.PauseNonNegative | src/game_state.rs:250-254 | with non-negative stops, the stop total is non-negative |
| Timing.BeatTimeMonotone | src/game_state.rs:230-257 | with positive tempos and non-negative stops, a later beat never has an earlier time |
| Timing.BeatZeroIsOffset | src/game_state.rs:231-233 | without stops, beat 0 falls exactly at the offset when every tempo change is at a non-negative beat |
| Timing.NoTimeBeforeOffset | src/game_state.rs:230-257 | no non-negative beat is timed before the offset |
| Chart.TagValueOfDeclaration | src/game_state.rs:260-268 | when the tag first occurs at `i` and the first `;` after it is at `j`, the value is the trimmed text between them |
| Chart.TagTextAbsent | src/game_state.rs:260-267 | the untrimmed text between the tag and `;` is missing exactly when no `;` follows the tag's first occurrence |
| Chart.TagValueAbsent | src/game_state.rs:260-268 | there is no value exactly when no `;` follows the tag's first occurrence, including when the tag is missing |
| Chart.ParseTagValue | src/game_state.rs:260-268 | a value exists only when the tag occurs; it holds no `;` and neither starts nor ends with white space |
| Chart.Offset | src/game_state.rs:100 | the offset is never negative and is the parsed `#OFFSET` value or its negation |
| Chart.DeclarationEntries | src/game_state.rs:107-108 | a missing marker gives no entries, a present one at least one, and no entry holds `,`, `\n` or `;` |
| Chart.ParseEntry | src/game_state.rs:109-116 | an entry without `=` is skipped |
| Chart.EntrySides | src/game_state.rs:109 | an entry `beat=value` without further `=` splits into exactly its two sides |
| Chart.TrimOnlyForStops | src/game_state.rs:114-126 | a `#STOPS` entry reads its value trimmed, while a `#BPMS` entry whose value holds a space is skipped |
| Chart.InsertAll | src/game_state.rs:107-118 | the map built from the entries is an ascending schedule |
| Chart.DeclaredBeatsOnly | src/game_state.rs:107-118 | a beat is in the map exactly when some well-formed entry declares it |
| Chart.LastDeclarationWins | src/game_state.rs:115 | when several entries declare the same beat, the map holds the value of the last one |
| Chart.BuildSchedule | src/game_state.rs:107-133 | the entry loop over a declaration builds the schedule specified by `ScheduleOf` |
| Chart.Classify | src/game_state.rs:140-169 | a line classified as a note row is non-empty and made only of `0`-`3` |
| Chart.ClassifyExact | src/game_state.rs:140-169 | a line is a `#NOTES` line, a separator or a note row exactly when its trimmed text starts with `#NOTES`, starts with `,`, or is a non-empty run of `0`-`3`; other lines keep their trimmed text |
| Chart.GroupLines | src/game_state.rs:135-179 | the line loop and the flush after it compute `Grouped`: the measures of each difficulty and the labels |
| Chart.SinceTwo | src/game_state.rs:155-157 | a line is a chart's label line exactly when it is the third line after a `#NOTES` line and the two lines before it are not `#NOTES` lines |
| Chart.ScanLineMeasures | src/game_state.rs:141-169 | each line extends the closed measures and the open measure as `ClosedRuns` and `OpenRun` specify: a separator closes a non-empty open measure, and a `#NOTES` line closes nothing |
| Chart.ScanLineCharts | src/game_state.rs:141-148 | each line extends the measures of the chart being read and the finished charts as `ClosedSince` and `ClosedCharts` specify: a `#NOTES` line ends the chart being read, if it has measures, without closing the open rows |
| Chart.FlushRows | src/game_state.rs:174-179 | after the flush, the recorded rows are exactly the note rows read after the first `#NOTES` |
| Chart.FlushMeasures | src/game_state.rs:174-179 | after the flush, the measures of all difficulties, in order, are `MeasuresOf` the lines |
| Chart.FlushCharts | src/game_state.rs:174-179 | after the flush, the difficulties are `DifficultiesOf` the lines: the open rows join the last chart |
| Chart.FlushFaithful | src/game_state.rs:174-179 | after the flush, the recorded rows are exactly the note rows read after the first `#NOTES`; no recorded measure or difficulty is empty; the measures of all difficulties, in order, are `MeasuresOf` the lines; and the difficulties are `DifficultiesOf` the lines |
| Chart.GroupingFacts | src/game_state.rs:135-179 | for any file, every note row after the first `#NOTES` is recorded, in order; the measures of all difficulties, in order, are the runs of rows between separators, with `#NOTES` lines closing no measure; the difficulties are `DifficultiesOf` the lines, so each `#NOTES` block holds the measures its separators close, rows still open at a `#NOTES` line go to the next block, the last block also takes the rows open at the end, and blocks without measures are dropped; no measure or difficulty is empty; and the labels are the third lines after each `#NOTES`, stripped of trailing `:` |
| Chart.OpenRowsCarryOver | src/game_state.rs:141-148 | in a two-chart example, the row still open when the second `#NOTES` line arrives starts the second chart's first measure |
| Chart.CarryExampleCharts | src/game_state.rs:141-179 | `DifficultiesOf` gives the same two charts for that example, so the reference grouping and the loop agree on it |
| Chart.RowBeatInMeasure | src/game_state.rs:192-195 | the rows of the `m`-th measure are evenly spaced, in increasing beats, in `[4m, 4m + 4)` |
| Chart.EmitRow | src/game_state.rs:197-219 | one row's characters extend the arrows as `Emitted` specifies and keep the hold-start registers in step |
| Chart.EmitMeasure | src/game_state.rs:193-221 | one measure's rows extend the arrows as `Emitted` specifies |
| Chart.CompileDifficulty | src/game_state.rs:182-223 | one difficulty's arrows are `Emitted` on the cells of its measures, with the registers starting at 0.0 |
| Chart.LastOpenIsLastStart | src/game_state.rs:207-213 | a hold end takes as its hit time the time of the lane's most recent `2` |
| Chart.LastOpenBeforeAnyStart | src/game_state.rs:184 | a hold end before any `2` on its lane takes hit time 0.0 |
| Chart.LastOpenSource | src/game_state.rs:184-213 | a lane's register holds either 0.0 or the time of some `2` on that lane |
| Chart.EmittedFromCells | src/game_state.rs:197-218 | every emitted arrow has spawn time 0.0; a tap comes from a `1` on its lane at its time, and a hold from a `3` on its lane at its end time |
| Chart.NoNotesNoArrows | src/game_state.rs:197-218 | cells with no `1` and no `3` emit nothing |
| Chart.OneArrowPerNote | src/game_state.rs:197-218 | exactly one arrow is emitted per `1` or `3` cell |
| Chart.CellsInReadingOrder | src/game_state.rs:187-222 | cells are produced in reading order (by beat, then lane), and every beat lies in `[0, 4 * measures)` |
| Chart.HoldAfterTap | src/game_state.rs:197-218 | the measure `2100`, `3000` emits the tap on lane 1 first, then the hold on lane 0 from beat 0 to beat 2 |
| Chart.HoldsEndAfterStart | src/game_state.rs:207-217 | with a clock that never runs backwards, every emitted hold ends no earlier than it starts |
| Chart.CompileDifficulties | src/game_state.rs:182-224 | the emission loop produces one arrow list per difficulty, each as `Emitted` specifies |
| Chart.ParseSmFile | src/game_state.rs:88-228 | the parse returns the text and sample tags, the difficulty labels, and each difficulty's arrows timed with the offset and the tempo and stop schedules, as `CompileChart` specifies |
| Chart.ChartHoldsEndAfterStart | src/game_state.rs:182-224 | with positive tempos, non-negative tempo beats and non-negative stops, no hold in any difficulty ends before it starts |
| Session.StartDelay | src/game_state.rs:73-79 | the delay is at least one second; it exceeds one second only when the first spawn time is negative, and then equals one minus that spawn time |
| Session.EarlyArrowsJudgedInDelay | src/main.rs:186-219 | the clock reads 0 throughout the delay, and at that reading `Judgment` takes the first arrow, when its spawn time is negative, exactly when a press hits it at elapsed time 0 |
| Session.EarlyTapHitInDelay | src/main.rs:186-219 | a tap due at 0 with spawn time -1.5, pressed during the start delay, is hit for 500 points and a combo increment before play begins |
| Session.SpawnsAheadPlaceable | src/game_state.rs:45-49 | arrows stamped with a non-zero speed never spawn at their hit time, so every one can be judged |
| Session.Chosen | src/game_state.rs:68-71 | the chosen difficulty's arrows, or none when the index is out of range |
| Session.StampedSpawnsAhead | src/game_state.rs:45-49 | after stamping, every arrow spawns `speed` seconds before its hit time |
| Session.StampSpawnTimes | src/game_state.rs:45-49 | every arrow of every difficulty gets spawn time `hit - speed`, with nothing else changed |
| Session.Load | src/game_state.rs:35-49 | the parsed chart, with its arrows stamped from `speed` |
| Session.GameState.constructor | src/game_state.rs:51-64 | the new state holds the parsed fields with stamped arrows, no active arrows, and the start time `now` |
| Session.GameState.Start | src/game_state.rs:67-85 | activates the chosen difficulty and sets the start time to `now` plus the start delay; every other field is unchanged and spawn times stay stamped |
| Session.New | src/game_state.rs:34-65 | `new` builds a fresh state from the parsed chart as `CompileChart` specifies |
| Play.LaneOf | src/main.rs:93-98 | exactly D, F, J and K map to a lane, and every lane is below 4 |
| Play.ApplyEvent | src/main.rs:119-132 | a key-down on a free lane presses and holds it; on a held lane it changes nothing; a key-up releases the lane; other events change nothing |
| Play.PollInput | src/main.rs:113-135 | the event loop computes `Polled`: pressed and held lanes up to the first quit or Escape |
| Play.QuitSticks | src/main.rs:116-118 | events after a quit have no effect |
| Play.PressedWithinHeld | src/main.rs:119-132 | every pressed lane is also held, and lanes stay below 4 |
| Play.Elapsed | src/main.rs:186 | elapsed time is `now - start`, saturating at zero before the start |
| Play.ElapsedMonotone | src/main.rs:186 | a later clock reading never gives less elapsed time |
| Play.Trunc | src/main.rs:225 | truncation toward zero |
| Play.F64ToI32 | src/main.rs:225 | `as i32` truncates toward zero and saturates at the `i32` bounds |
| Play.F64ToU32 | src/main.rs:228 | `as u32` truncates toward zero and saturates at 0 and the `u32` maximum |
| Play.WrapI32 | src/main.rs:229 | the wrapped value is in the `i32` range, congruent modulo 2^32, and unchanged when already in range |
| Play.U32ToI32 | src/main.rs:229 | `u32 as i32` is in the `i32` range and congruent modulo 2^32 |
| Play.YPos | src/main.rs:196-197 | an arrow is at the spawn row at its spawn time and on the judgment line at its hit time |
| Play.YPosMonotone | src/main.rs:196-197 | an arrow that spawns before its hit time never moves back up the screen |
| Play.Points | src/main.rs:212-217 | points are 100 to 500: 500 exactly when the distance is below 5, 100 exactly when it is 20 or more |
| Play.PointsByDistance | src/main.rs:212-217 | points are between 100 and 500 and never grow with the distance from the line |
| Play.RectY | src/main.rs:224-229 | the hold bar's top is an `i32` |
| Play.RectYWraps | src/main.rs:224-229 | the bar's top is the truncated row minus the truncated height, reduced modulo 2^32 into the `i32` range |
| Play.WrapSigned | src/main.rs:229 | subtracting a `u32` read as `i32` with wrap-around agrees with plain subtraction modulo 2^32 |
| Play.RectYWithoutOverflow | src/main.rs:225-229 | for moderate values, the hold rectangle's top is the truncated note position minus the truncated hold height |
| Play.Judgment | src/main.rs:191-254 | an arrow not yet spawned is kept; a hit takes the lane, scores by distance, increments the combo and removes the arrow; a held long note scores 5 in its window, and an arrow neither hit nor held in its window scores nothing; a passed tap resets the combo; long notes never change the combo unless hit |
| Play.Judge | src/main.rs:190-254 | the `retain` loop computes `JudgeAll`: the surviving arrows, score and combo |
| Play.ScoreNeverDecreases | src/main.rs:204-217 | a frame never lowers the score |
| Play.TakenGrows | src/main.rs:209-211 | the set of taken lanes only grows during a frame |
| Play.OneHitPerLane | src/main.rs:209-211 | at most one arrow per lane is hit in one frame |
| Play.SurvivorsInOrder | src/main.rs:191 | the surviving arrows are a subsequence of the active arrows, in the same order |
| Play.LongArrowsNeverHit | src/main.rs:202-207 | with the lanes polled this frame and any score and combo before it, a press never hits a long arrow, because every pressed lane is also held |
| Play.PlayFrame | src/main.rs:113-254 | a quit leaves the arrows, score and combo unchanged; otherwise the frame judges the arrows with the polled lanes at the elapsed time |
| Play.ChooseDifficulty | src/main.rs:303-321 | the menu loop computes `Menu`: Up and Down move the clamped selection, Return chooses it, and a window close exits |
| Play.MenuInRange | src/main.rs:306-315 | with at least one difficulty, the selection stays within the list |

## Left out

- Reading the file, SDL windows, drawing, fonts, audio and the sample loop are not modelled. The play loop's exit when the music stops is not modelled either. The clock is a parameter.
- Floating point: every `f64` is an exact `real`. Rounding, infinities and NaN are not modelled. `parse::<f64>` accepts only finite decimal text, and `inf`/`nan` spellings do not parse.
- A zero tempo makes `beat_to_time` divide by zero, which in `f64` gives infinity or NaN rather than a panic. The model rejects every chart with a zero tempo (`Compilable`), including charts whose notes never reach that tempo and which the source times finitely.
- `HashMap` iteration order does not matter to the model: the stop total is a sum, and the tempo keys are sorted in the source. Schedules are therefore ascending sequences.
- Slicing `content[bpm_index+6..]` panics when the text ends right after the marker; `DeclarationInBounds` is the precondition that rules this out. Text is a sequence of characters, not UTF-8 bytes, so the panic for a slice that falls inside a multi-byte character (`#BPMSé…`) is not modelled.
- `last_long_start[lane]` panics for a `2` or `3` beyond lane 3. `HoldsFit` is the precondition that rules this out, while a `1` in any lane is accepted, as in the source.
- Score and combo are unbounded integers; `i32` overflow of the score or combo is not modelled.
- Play.RectYWithoutOverflow: stated only for moderate values. The general case, with saturating casts and release-build wrap-around, is `RectY` itself. A debug build would panic on the overflowing subtraction instead.
- The drawing parts of `retain` are not modelled: the x position, the rectangles, and the recomputed `rect_height` that is only drawn.
- Play.ChooseDifficulty: `selected` is a `u32` in the source. The model uses a natural number, and requires at most 2^32 difficulties so that `try_into` succeeds. With no difficulties, Down underflows `len() - 1` and panics, so the model requires a difficulty to exist whenever a Down event is reached.
- Session.GameState.Start: the difficulty index is a `u32` in the source and a natural number here.
- The ghost `speed` and `parsed` fields of `GameState` are not part of the source; they only record what `new` was given.
- Session.StartDelay: the source's start delay does not keep arrows from being judged before play begins. The clock reads 0 throughout it, so an arrow with a negative spawn time can be hit during the wait; `EarlyArrowsJudgedInDelay` states this.
- `Duration::from_secs_f64` panics on negative or overflowing values. `StartDelay` is always at least one second, so the negative case cannot arise; overflow is not modelled.
