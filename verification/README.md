# SingingApp analysis pipeline, modelled in Dafny

SingingApp compares a user's singing with a reference recording. Its Python
tools read two pitch tracks (one f0 value per analysis frame, `null` when
unvoiced) and compute:

- the frames where the user is flat, sharp or silent, and the events (runs of
  such frames) that follow from them (`tools/01`, `tools/02`);
- an overall verdict with statistics (`tools/05`);
- an octave or key check (`tools/06`);
- the time lag between the two recordings (`tools/08`).

Other tools turn the events into comments and comment cards (`tools/03`,
`tools/07`). The lyrics tools import LRC, SRT or plain-text lyrics
(`tools/10`, `tools/14`), time them against the voiced stretches of the
reference (`tools/11`), and write the timed rows back out as SRT, LRC and a
JSON overlay (`tools/12`). `tools/_song_paths.py` lays out the per-song
directories. `SingingApp/feedback.py` gives a stability score for one take.

Each Python file becomes one Dafny module. Shared pieces are gathered in the
following modules:

| module | what it holds |
|---|---|
| `Wrappers` | `Option` and `Result` |
| `Numeric` | rounding, integer square root, sums, variance |
| `Text` | Python's `strip`, `split`, `splitlines`, `int`, `float` and zero-padded formatting, on `seq<char>` |
| `Sorting`, `Stats` | stable sorting, `sorted`, median, percentile |
| `Frames` | pitch files, frame alignment, cents |
| `Runs` | the three run-finding loops |
| `Events` | event records |
| `Timeline` | even time slices |
| `LyricsTime` | lyric timestamps |
| `CommentCommon` | what the two comment tools share |
| `SubtitleReadBack` | what the importer reads back from the files the subtitle writer produces |

Modelling choices:

- A JSON `null` or numpy's NaN is `None`.
- Floats are exact `real`s.
- `math.log2` is a function parameter.
- Every operation is a pure function, or a method with a loop, whose contract
  says what it computes. Python's exceptions become `Err` values.

## Model

| member | source | states |
|---|---|---|
| EventSummary.Cents | tools/01_make_events_and_summary.py:4-5 | `cents(a, b)` fails with a division error exactly when `b` is zero and with a math-domain error exactly when the ratio is not positive; otherwise it is `1200 * log2(a / b)` |
| EventSummary.ClassifyFrame | tools/01_make_events_and_summary.py:70-96 | a frame is a miss exactly when the reference is voiced and the user is not; it is skipped exactly when the reference is unvoiced; it is compared exactly when both are voiced with a positive ratio, and then it carries their cents |
| EventSummary.Flags | tools/01_make_events_and_summary.py:58-96 | the `low_flags`, `high_flags` and `unvoiced_miss_flags` lists have one entry per frame, true exactly for frames of that class |
| EventSummary.Partition | tools/01_make_events_and_summary.py:88-96 | with a non-negative tolerance, the within, low and high frames together are exactly the compared frames |
| EventSummary.CountAtMostVoiced | tools/01_make_events_and_summary.py:88-96 | no class counts more frames than were compared, so every percentage is at most one |
| EventSummary.CentsList | tools/01_make_events_and_summary.py:77-90 | `cents_list` holds the cents of each compared frame and 0.0 for every other frame, one entry per frame |
| EventSummary.NonZero | tools/01_make_events_and_summary.py:100 | the filtered list holds only non-zero entries of its input |
| EventSummary.NonZeroKeeps | tools/01_make_events_and_summary.py:100 | every non-zero entry survives the filter |
| EventSummary.VoicedCentsMembers | tools/01_make_events_and_summary.py:100 | `voiced_cents` holds exactly the non-zero cents of compared frames |
| EventSummary.MissSecondsIsCountTimesHop | tools/01_make_events_and_summary.py:115 | the unvoiced-miss seconds are the number of missed frames times one hop |
| EventSummary.VerdictCutoff | tools/01_make_events_and_summary.py:124-139 | rounding to four decimals first makes the verdict "mostly_ok" exactly when the within share is at least 0.84995, not 0.85 |
| EventSummary.SampleStatsOrdered | tools/01_make_events_and_summary.py:101-128 | minimum ≤ p10 ≤ median ≤ p90 ≤ maximum, and the mean lies between minimum and maximum |
| EventSummary.Summarize | tools/01_make_events_and_summary.py:98-130 | the summary counts every frame and ends one hop after the last frame starts; every share lies in [0, 1]; when frames were compared the shares are the class counts over the compared count |
| EventSummary.PercentagesAddUp | tools/01_make_events_and_summary.py:124-126 | with a non-negative tolerance and at least one compared frame, the within, low and high shares add up to one |
| EventSummary.GroupedEvent | tools/01_make_events_and_summary.py:18-28 | an event runs from its first frame's start to its last frame's end; it has an average exactly when cents were passed; it has a `max_cents` exactly when cents were passed for a low or high event |
| EventSummary.GroupEvents | tools/01_make_events_and_summary.py:7-31 | `group_events` reports every maximal run of flagged frames, in order, as one event |
| EventSummary.LowEventBelowTolerance | tools/01_make_events_and_summary.py:24-26 | a low event's average is below `-tol`, and its `max_cents` (the run's minimum) is at most the average |
| EventSummary.HighEventAboveTolerance | tools/01_make_events_and_summary.py:24-28 | a high event's average is above `tol`, and its `max_cents` (the run's maximum) is at least the average |
| EventSummary.EventLastsAtLeastOneHop | tools/01_make_events_and_summary.py:18-19 | with ascending frame times every event lasts at least one hop |
| EventSummary.MakeEventsAndSummary | tools/01_make_events_and_summary.py:45-144 | mismatched `sr`/`hop` raise; a missing or zero rate raises; the first failing frame's error is the result; on success there is one class per common frame, the summary is computed from those classes, and the events are the low, then high, then miss runs |
| Runs.SameMembersSameList | tools/02_compare_with_reference.py:60-71 | two ascending, separated run lists with the same members are the same list |
| Runs.RunListUnique | tools/02_compare_with_reference.py:60-71 | the maximal runs of at least a given length are determined by the mask, so the three run finders below must agree |
| Runs.MaximalRunsFrom | tools/11_align_lyrics.py:26-33 | from a run boundary on, the runs the reference finder lists are separated, each maximal, and every maximal run that starts there is among them |
| Runs.MaximalRunsList | tools/11_align_lyrics.py:26-33 | the reference finder lists all maximal true runs, in order |
| Runs.StartDeterminesEnd | tools/11_align_lyrics.py:29-33 | two maximal runs with the same start are the same run |
| Runs.SegmentMask | tools/02_compare_with_reference.py:60-71 | `segment_mask` with its `False` sentinel returns, in order, exactly the maximal true runs at least `min_len_frames` long |
| Runs.SegStep | tools/08_autosync_offset.py:88-98 | one index of `seg_from_mask` keeps the invariant: every closed maximal run that is long enough is listed, and an open run is all true |
| Runs.SegFromMask | tools/08_autosync_offset.py:88-98 | `seg_from_mask`, which closes a run at the last index instead of at a sentinel, also returns exactly the maximal true runs that are long enough |
| Runs.CloseRun | tools/08_autosync_offset.py:88-98 | closing a run at a false frame or at the end of the mask yields a maximal run, and afterwards every maximal run ending there is listed |
| Runs.FlagRuns | tools/01_make_events_and_summary.py:9-30 | the nested `while` of `group_events` visits exactly the maximal true runs, in order |
| Events.SortByStart | tools/02_compare_with_reference.py:137 | sorting by start gives a permutation of the events, ordered by start |
| Events.SortByStartStable | tools/02_compare_with_reference.py:137 | events with equal starts keep the order in which they were emitted, as Python's stable sort promises |
| Events.ArgMaxAbs | tools/02_compare_with_reference.py:108 | the index `max(seg, key=abs)` picks has the largest magnitude, and every earlier entry is strictly smaller in magnitude (ties go to the first) |
| Events.MaxByAbs | tools/02_compare_with_reference.py:108 | `max(seg, key=abs)` is an element of the largest magnitude |
| Events.MaxByAbsOfNegatives | tools/02_compare_with_reference.py:105-108 | among negative cents, the largest magnitude is the minimum |
| Events.MaxByAbsOfPositives | tools/02_compare_with_reference.py:117-120 | among positive cents, the largest magnitude is the maximum |
| Events.MeanBetween | tools/02_compare_with_reference.py:107 | a mean lies between the minimum and the maximum |
| Events.MeanBelow | tools/02_compare_with_reference.py:107 | the mean of values all below a bound is below that bound |
| Events.MeanAbove | tools/02_compare_with_reference.py:119 | the mean of values all above a bound is above that bound |
| Events.RunListWithin | tools/02_compare_with_reference.py:105-134 | every run found in a mask lies inside it, so indexing the times by a run is safe |
| Events.MissEvent | tools/02_compare_with_reference.py:129-134 | an `unvoiced_miss` event spans its run and has no cents statistics |
| Events.MissEvents | tools/02_compare_with_reference.py:129-134 | one unvoiced-miss event per run, in order |
| Events.MissEventsForward | tools/02_compare_with_reference.py:129-134 | with ascending reference times, no unvoiced-miss event ends before it starts |
| Events.SpansForward | tools/02_compare_with_reference.py:137 | reordering the events keeps every one of them running forward |
| CompareReference.MinFrames | tools/02_compare_with_reference.py:85-86 | the shortest event is at least one frame long: one frame when 0.2 s of frames comes to less than 1.5, and otherwise more than one frame and within half a frame of 0.2 s of frames |
| CompareReference.MinFramesWithoutHop | tools/02_compare_with_reference.py:85-86 | without a hop the 172 fps fallback gives 34 frames |
| CompareReference.ClassesExclusive | tools/02_compare_with_reference.py:96-100 | no frame is both low and high, and an unvoiced-miss frame is neither |
| CompareReference.PitchEvent | tools/02_compare_with_reference.py:105-127 | a pitch event runs from the reference time of its first frame to that of its last frame |
| CompareReference.PitchEvents | tools/02_compare_with_reference.py:105-127 | one pitch event per run, in order |
| CompareReference.LowEventStats | tools/02_compare_with_reference.py:105-115 | every cent in a low run is present and below -35, so the event's average is below -35 and its `max_cents` is the run's minimum |
| CompareReference.HighEventStats | tools/02_compare_with_reference.py:117-127 | every cent in a high run is present and above +35, so the average is above +35 and `max_cents` is the run's maximum |
| CompareReference.PitchEventsForward | tools/02_compare_with_reference.py:105-127 | with ascending reference times, no pitch event ends before it starts |
| CompareReference.EmitSorted | tools/02_compare_with_reference.py:103-137 | the written events are the low, then high, then miss events stably sorted by start: a permutation of them, ordered by start, with equal starts kept in that order |
| CompareReference.CompareWithReference | tools/02_compare_with_reference.py:81-137 | on sorted tracks every reference frame is matched with a nearest user frame; the three run lists are exactly the maximal runs at least `min_frames` long; the events are those runs' events, low then high then miss, stably sorted by start, each running forward |
| Frames.SearchSorted | tools/05_overall_summary.py:26 | `np.searchsorted` returns the first index whose element is not below the time: everything before it is below |
| Frames.NearestUnique | tools/05_overall_summary.py:24-28 | at most one frame is nearest with every earlier frame strictly farther, so two alignments that both break ties to the earlier frame agree |
| Frames.AlignOnRef | tools/05_overall_summary.py:24-28 | `align_on_ref` returns a frame nearest to the reference time on sorted user times, ties going to the earlier frame; the index is -1 exactly for a one-frame user track |
| Frames.SearchSortedNearest | tools/05_overall_summary.py:26-28 | the clipped insertion point and its left neighbour bracket the time, so the closer of the two is a nearest frame |
| Frames.BracketNearest | tools/02_compare_with_reference.py:44-51 | once the cursor is at the last user frame not after the time, the choice between it and the next frame is a nearest frame |
| Frames.StaysRight | tools/02_compare_with_reference.py:48 | a later reference time that has not passed the right-hand frame still prefers it |
| Frames.AdvanceCursor | tools/02_compare_with_reference.py:45-46 | the inner `while` stops at the last user frame not after the reference time, and never moves back |
| Frames.StepFacts | tools/02_compare_with_reference.py:43-51 | on sorted tracks one step chooses a nearest frame, never behind the previous choice |
| Frames.WalkStep | tools/02_compare_with_reference.py:43-51 | one reference time of the walk keeps the loop invariant |
| Frames.AlignUserToRef | tools/02_compare_with_reference.py:38-52 | `align_user_to_ref` gives one index per reference time; on sorted tracks each index is a nearest user frame and the indices never decrease; on strictly increasing user times it picks the same frame as `align_on_ref` |
| Frames.WalkAgrees | tools/05_overall_summary.py:24-28 | a nearest choice that breaks ties to the earlier frame is exactly the `searchsorted` choice, so the alignments of `tools/02` and `tools/05` agree |
| Frames.LookupFrame | tools/02_compare_with_reference.py:90 | an index outside the user track gives no f0 |
| Frames.HzToCentsRatio | tools/02_compare_with_reference.py:54-58 | the cents are absent exactly when either frequency is absent or not positive, and are otherwise `1200 * log2(f_usr / f_ref)` |
| Frames.AlignedF0 | tools/02_compare_with_reference.py:90 | `f_usr_on_ref` holds the user f0 at each chosen index |
| Frames.EmptyUserAllAbsent | tools/02_compare_with_reference.py:90 | an empty user track leaves every reference frame without a user f0 |
| Frames.CentsOnRef | tools/02_compare_with_reference.py:93 | `zip` stops at the shorter list, and a frame has cents exactly when both of its frequencies are voiced |
| Frames.BelowMask | tools/02_compare_with_reference.py:96 | `is_low` is true exactly for present cents below the threshold |
| Frames.AboveMask | tools/02_compare_with_reference.py:97 | `is_high` is true exactly for present cents above the threshold |
| Frames.MissMask | tools/02_compare_with_reference.py:99-100 | `unvoiced_miss` is true exactly where the reference is voiced and the aligned user frame is not |
| Frames.VoicedMask | tools/08_autosync_offset.py:23-24 | `voiced_mask` is true exactly for present, positive f0 |
| Frames.Choose | tools/08_autosync_offset.py:31-33 | for every reference time, an index inside the user track that is a nearest frame when the user times are sorted |
| Frames.MaskOnRef | tools/08_autosync_offset.py:34 | `mU[choose]` carries the user's voicing onto each reference frame |
| Frames.Diff | tools/05_overall_summary.py:59 | `np.diff` holds the spacing of each pair of consecutive frames |
| Frames.Present | tools/02_compare_with_reference.py:106 | the filtered list holds only values present in the segment |
| Frames.PresentAll | tools/02_compare_with_reference.py:106 | with no absent entry, filtering keeps every value in place |
| Frames.PresentCount | tools/02_compare_with_reference.py:106 | filtering keeps exactly the present entries |
| Frames.UserOnRef | tools/05_overall_summary.py:48-49 | `fU_on_R` has one f0 per reference frame |
| Frames.UserOnRefIsNearest | tools/05_overall_summary.py:48-49 | with ascending user times, every reference frame gets the f0 of a nearest user frame |
| Frames.BothVoicedMask | tools/05_overall_summary.py:52 | the mask is true exactly where both the reference and the aligned user f0 are voiced |
| Frames.FramesAreBothVoiced | tools/05_overall_summary.py:52-56 | there is one cents value per frame of the mask |
| Frames.NoVoicedOverlap | tools/06_key_offset_check.py:104-108 | there are no cents exactly when no reference frame is voiced in both tracks |
| OverallSummary.AddEvent | tools/05_overall_summary.py:33-35 | an event of another type changes nothing; the sum fails exactly when a counted event has no start |
| OverallSummary.RawDuration | tools/05_overall_summary.py:32-35 | the loop fails with the missing-start error exactly when some counted event lacks `start` |
| OverallSummary.DurFromEvents | tools/05_overall_summary.py:30-36 | no events file counts zero; a result is never negative; it fails exactly when a counted event lacks `start` |
| OverallSummary.Counted | tools/05_overall_summary.py:34 | the counted events are exactly the events of the asked type, or all events when no type is given |
| OverallSummary.OtherTypesIgnored | tools/05_overall_summary.py:34 | events of other types, however malformed, change nothing |
| OverallSummary.RawDurationAppend | tools/05_overall_summary.py:32-35 | the raw durations of two event lists add up |
| OverallSummary.ForwardRawNonNegative | tools/05_overall_summary.py:35-36 | when no counted event ends before it starts, the raw sum is already non-negative, so the clamp never bites |
| OverallSummary.DurationsAdd | tools/05_overall_summary.py:30-36 | for such forward events the durations of two event files add up |
| OverallSummary.DataSeconds | tools/05_overall_summary.py:59-60 | with a hop, the data seconds are `n` frames of `hop / sr`, and a zero `sr` raises; without a hop they are `n` frames of the median spacing, or NaN for fewer than two frames |
| OverallSummary.SecondsFromRate | tools/05_overall_summary.py:59-60 | `len / (sr / hop)` raises exactly when `sr` is zero, and is otherwise `n * hop / sr` |
| OverallSummary.SecondsFromSpacing | tools/05_overall_summary.py:59-60 | without a hop there is a result exactly when there are at least two frames |
| OverallSummary.RateFacts | tools/05_overall_summary.py:59-60 | a rate is zero only for a zero `sr`, and dividing by it multiplies by the frame time |
| OverallSummary.BandMask | tools/05_overall_summary.py:63-65 | the `within`, `low` and `high` masks are true exactly where each cent is in the band |
| OverallSummary.BandPartition | tools/05_overall_summary.py:63-65 | with a non-negative tolerance each cent is in exactly one band |
| OverallSummary.EmptyBand | tools/05_overall_summary.py:63-65 | a band no cent falls in counts zero |
| OverallSummary.Ratio | tools/05_overall_summary.py:67-69 | every share lies in [0, 1] |
| OverallSummary.RatiosAddUp | tools/05_overall_summary.py:67-69 | with a non-negative tolerance the three shares add up to one |
| OverallSummary.Judge | tools/05_overall_summary.py:88-117 | the verdict is "insufficient_data" exactly when there are fewer than `MIN_SECONDS` of data or no cents |
| OverallSummary.MostlyOkMeaning | tools/05_overall_summary.py:92-117 | "mostly_ok" means: enough data; a median within 20 cents; no lean of 0.15 either way; at least 55% within the tolerance; a spread of at most 120 cents; and so at most 45% outside the tolerance |
| OverallSummary.FlatThroughoutIsLow | tools/05_overall_summary.py:102-105 | singing 20 cents or more flat throughout is judged low |
| OverallSummary.SharpThroughoutIsHigh | tools/05_overall_summary.py:106-109 | singing 20 cents or more sharp throughout is judged high |
| OverallSummary.SteadyAndCentredIsMostlyOk | tools/05_overall_summary.py:102-117 | staying within `b < 20` cents of the reference, with `b` inside the tolerance, is judged mostly ok |
| OverallSummary.SmallSpread | tools/05_overall_summary.py:110 | samples within 20 cents of zero have a spread below 120 cents |
| OverallSummary.VarianceWithin | tools/05_overall_summary.py:73 | samples within `[-b, b]` have a variance of at most `(2b)²` |
| OverallSummary.Describe | tools/05_overall_summary.py:67-76 | the shares are the band ratios and the median is the median; minimum ≤ p10 ≤ median ≤ p90 ≤ maximum; the mean lies between minimum and maximum |
| OverallSummary.Report | tools/05_overall_summary.py:87-136 | the report counts the cents and carries the seconds and miss time; the statistics are missing exactly when there are no cents, and then the verdict is "insufficient_data" |
| OverallSummary.MissSeconds | tools/05_overall_summary.py:79-85 | the miss time is null exactly when the events file is missing, unreadable or empty; otherwise it is never negative, and it fails exactly when an unvoiced-miss event lacks `start` |
| OverallSummary.SummaryOfCents | tools/05_overall_summary.py:59-136 | given the cents, the result fails with `ZeroDivisionError` exactly on a zero `sr` with a non-zero `hop`, fails on a missing start exactly when an unvoiced-miss event lacks one and the seconds were computed, and is otherwise the report of those seconds and that miss time |
| OverallSummary.OverallSummaryOf | tools/05_overall_summary.py:44-136 | an empty user track with a non-empty reference fails on indexing; a zero `sr` with a hop fails on division; a miss event without `start` fails; otherwise the report is computed from the voiced cents |
| KeyOffset.SemitoneOffset | tools/06_key_offset_check.py:116 | the semitone offset is the median rounded to whole semitones: within 50 cents of it |
| KeyOffset.OctaveK | tools/06_key_offset_check.py:119 | the octave factor is within 600 cents of the median |
| KeyOffset.OctaveVerdictMeaning | tools/06_key_offset_check.py:119-126 | the verdict is "octave_shift" exactly when the median lies within 200 cents of a whole, non-zero number of octaves, whatever the rounding |
| KeyOffset.NearOctaveRounds | tools/06_key_offset_check.py:119-125 | a median within 200 cents of `j` octaves rounds to `j` |
| KeyOffset.OctaveBands | tools/06_key_offset_check.py:125-126 | medians between 1000 and 1400 cents from zero are octave shifts; those within 1000 cents are key shifts |
| KeyOffset.WithinMask | tools/06_key_offset_check.py:123 | the mask is true exactly for wrapped cents within 40, inclusive |
| KeyOffset.Within40 | tools/06_key_offset_check.py:123 | the share is NaN exactly for no wrapped cents, and otherwise lies in [0, 1] |
| KeyOffset.Within40Extremes | tools/06_key_offset_check.py:123 | all wrapped cents within 40 give one; none within 40 gives zero |
| KeyOffset.GlossaryItems | tools/06_key_offset_check.py:26-34 | the glossary holds exactly the notes asked for, one each |
| KeyOffset.GlossaryOrder | tools/06_key_offset_check.py:26-34 | the notes come in the fixed order octave, semitone, cents |
| KeyOffset.JaVerdict | tools/06_key_offset_check.py:36-43 | an octave shift names its direction and closes with `（k=…）` giving the octave count; no semitone offset gives the original-key sentence; otherwise the message names the number of semitones and closes with "lower (−)" for a negative shift and "higher (＋)" for a positive one |
| KeyOffset.JaVerdictDistinct | tools/06_key_offset_check.py:36-43 | the message opens with the octave words exactly for an octave shift, and is the original-key sentence exactly for a key shift of zero semitones |
| KeyOffset.Describe | tools/06_key_offset_check.py:110-171 | the report counts the cents and holds their median, mean and variance; `semitone_offset_cents` is 100 times the offset; the wrapped median is the median less `k_oct` octaves and is within 600 cents; wrapping leaves the spread unchanged; the within-40 share is that of the cents less `k_oct` octaves and lies in [0, 1]; the verdict is the octave one exactly when an octave shift is likely; `verdict_ja` is the Japanese message for the verdict, `k_oct` and the offset; the notes are the glossary for the verdict |
| KeyOffset.KeyOffsetCheck | tools/06_key_offset_check.py:98-171 | an empty user track with a non-empty reference fails; the result is "no_voiced_overlap" exactly when no frame is voiced in both tracks; otherwise it is the report of the voiced cents |
| Autosync.FrameSpacingNonNegative | tools/08_autosync_offset.py:37 | with ascending reference times the frame spacing `dt` is not negative |
| Autosync.LagSlices | tools/08_autosync_offset.py:42-47 | at lag `k` the two slices have the same length, the overlap of the two masks |
| Autosync.Both | tools/08_autosync_offset.py:50 | the product of two 0/1 masks is true exactly where both are |
| Autosync.PairedAt | tools/08_autosync_offset.py:41-50 | lag `k` pairs reference frame `j` with aligned user frame `j + k` |
| Autosync.ScoreCountsPairs | tools/08_autosync_offset.py:41-50 | the score at lag `k`, as the script slices it, counts the pairs that are voiced in both tracks |
| Autosync.PairsAhead | tools/08_autosync_offset.py:44-45 | for `k > 0` the slices pair the first `n - k` reference frames |
| Autosync.PairsBehind | tools/08_autosync_offset.py:42-43 | for `k < 0` the slices pair the last `n + k` reference frames |
| Autosync.BestUnique | tools/08_autosync_offset.py:39-53 | the search result is determined by the masks and the lag range |
| Autosync.ShortReferenceNoLag | tools/08_autosync_offset.py:48-49 | a reference shorter than 10 frames never yields a lag: the result is lag 0 with score -1 |
| Autosync.BestStep | tools/08_autosync_offset.py:48-53 | trying one more lag keeps the search's invariant: the best is the first lag with the highest score |
| Autosync.BestLag | tools/08_autosync_offset.py:38-53 | the loop over `range(-M, M + 1)` finds the first lag of highest score among the lags with at least 10 overlapping frames |
| Autosync.NothingTried | tools/08_autosync_offset.py:39-40 | over an empty lag range the result is `(0, -1)` |
| Autosync.CrossCorrOffset | tools/08_autosync_offset.py:26-55 | `crosscorr_offset` fails on an empty user track (indexing) and on a zero spacing (division); otherwise it returns the best lag in seconds and its score |
| Autosync.ShiftWithinWindow | tools/08_autosync_offset.py:37-55 | for a positive spacing the shift exceeds `max_shift` by at most half a frame |
| Autosync.LagInRange | tools/08_autosync_offset.py:39-53 | the chosen lag is one the loop tried, or 0 when none qualified |
| Autosync.ShiftUserPitch | tools/08_autosync_offset.py:57-66 | every frame moves by `shift_sec` and keeps its f0; `sr`, `hop` and the shift are recorded |
| Autosync.ShiftUndo | tools/08_autosync_offset.py:57-66 | shifting back by the opposite amount restores the track |
| Autosync.ShiftKeepsOrder | tools/08_autosync_offset.py:57-66 | shifting keeps the frame order and the voicing |
| Autosync.MinFrames | tools/08_autosync_offset.py:86 | `min_frames` is the fewest frames, at least one, that last `min_event_sec` |
| Autosync.PitchEvent | tools/08_autosync_offset.py:104-117 | a pitch event runs from its run's first to its last reference time, and carries an average and a peak |
| Autosync.NegativePeak | tools/08_autosync_offset.py:110 | for values all below `-tol`, the peak signed like the mean is the minimum |
| Autosync.PositivePeak | tools/08_autosync_offset.py:117 | for values all above `tol`, the signed peak is the maximum |
| Autosync.PitchEvents | tools/08_autosync_offset.py:104-117 | one pitch event per run, in order |
| Autosync.LowPeakIsMinimum | tools/08_autosync_offset.py:103-110 | every cent in a low run is present, so the average is below `-tol` and `max_cents` is the run's minimum |
| Autosync.HighPeakIsMaximum | tools/08_autosync_offset.py:102-117 | every cent in a high run is present, so the average is above `tol` and `max_cents` is the run's maximum |
| Autosync.EmitSorted | tools/08_autosync_offset.py:100-127 | the events are the low, then high, then miss events stably sorted by start: a permutation of them, ordered by start, with equal starts kept in that order |
| Autosync.CompareMakeEvents | tools/08_autosync_offset.py:68-128 | `compare_make_events` fails on an empty user track and on a zero hop; otherwise its three run lists are exactly the maximal runs at least `min_frames` long, and its events are theirs, low then high then miss, stably sorted by start |
| Autosync.AutosyncMain | tools/08_autosync_offset.py:130-144 | `main` fails on an empty user track, and with a division by zero exactly when the reference frame spacing or the hop is zero; otherwise it estimates the offset from the voiced masks, shifts the user track by it, and writes the run lists and events `compare_make_events` gives for the shifted track |
| LyricsTime.Cleaned | tools/14_import_lyrics_v2.py:7 | the cleaned timestamp holds no comma |
| LyricsTime.ParseTimeVersionsAgree | tools/10_import_lyrics.py:16-31 | the `parse_time` of `tools/10`, which replaces a comma only when there is one, reads every text exactly as that of `tools/14` (`LyricsTime.ParseTime`) |
| LyricsTime.ClockOf | tools/12_make_subtitles.py:10-22 | `int(sec)` and the rounded fraction stand for the time within half a unit; for a non-negative time the fraction lies in `[0, scale]`, and it can reach `scale` |
| LyricsTime.Carry | tools/12_make_subtitles.py:10-15 | carrying a fraction that rounded up to a whole second keeps the time it stands for and leaves a fraction below `scale` |
| LyricsTime.FieldValueFits | tools/14_import_lyrics_v2.py:11 | a padded fraction field narrower than its width reads as `n / 10^w` |
| LyricsTime.ParseSecondsField | tools/14_import_lyrics_v2.py:11 | `float("ss.ff")` of two padded fields is the seconds plus the fraction |
| LyricsTime.CleanedSrtText | tools/14_import_lyrics_v2.py:7 | cleaning an SRT timestamp only turns its comma into a point |
| LyricsTime.SplitClockText | tools/14_import_lyrics_v2.py:8 | `h:m:s.f` splits on `:` into hours, minutes and seconds with their fraction |
| LyricsTime.ReadSrtText | tools/14_import_lyrics_v2.py:6-19 | `LyricsTime.ParseTime` reads an SRT timestamp of any fields back as their sum; a millisecond field of more than three digits is read as a longer fraction |
| LyricsTime.ReadSrtClock | tools/12_make_subtitles.py:8-15 | the SRT timestamp of a clock reading reads back as the whole seconds plus the written milliseconds field |
| LyricsTime.ReadSrtCarried | tools/12_make_subtitles.py:8-15 | when the milliseconds fit in three digits, the timestamp reads back as exactly the time it stands for |
| LyricsTime.SrtTimestampRoundTrip | tools/12_make_subtitles.py:8-15 | with the carry, the SRT timestamp of every non-negative time reads back within half a millisecond of that time |
| LyricsTime.SrtCarryCounterexample | tools/12_make_subtitles.py:10-15 | as written, 5.9996 s rounds to 1000 milliseconds, which are not carried: the timestamp ends in the four-digit `,1000` and reads back as 5.1 s |
| LyricsTime.SrtCarriedExample | tools/12_make_subtitles.py:10-15 | with the carry, 5.9996 s is written as six whole seconds and reads back as 6 s |
| LyricsTime.WideField | tools/12_make_subtitles.py:15-23 | a field one digit wider than its width is read as a fraction of `10^(w+1)` |
| LyricsTime.CleanedLrcStamp | tools/14_import_lyrics_v2.py:7 | the time inside an LRC tag has nothing to strip and no comma |
| LyricsTime.SplitLrcStamp | tools/14_import_lyrics_v2.py:8 | `m:s.f` splits on `:` into the minutes and the seconds with their fraction |
| LyricsTime.ReadLrcStamp | tools/14_import_lyrics_v2.py:13-15 | the time of an LRC tag reads back as minutes and seconds added up; a hundredths field of more than two digits is read as a longer fraction |
| LyricsTime.ReadLrcClock | tools/12_make_subtitles.py:17-23 | the LRC time of a clock reading reads back as the whole seconds plus the written hundredths field |
| LyricsTime.ReadLrcCarried | tools/12_make_subtitles.py:17-23 | when the hundredths fit in two digits, the LRC time reads back as exactly the time it stands for |
| LyricsTime.LrcTagRoundTrip | tools/12_make_subtitles.py:17-23 | with the carry, the time in the LRC tag of every non-negative time reads back within half a hundredth of that time |
| LyricsTime.LrcCarryCounterexample | tools/12_make_subtitles.py:19-23 | as written, 5.996 s rounds to 100 hundredths, which are not carried: the tag ends in the three-digit `.100` and reads back as 5.1 s |
| LyricsTime.LrcCarriedExample | tools/12_make_subtitles.py:19-23 | with the carry, 5.996 s is tagged as six whole seconds and reads back as 6 s |
| LyricsTime.CarryNone | tools/12_make_subtitles.py:10-15 | the carry changes nothing when the fraction did not round up to a whole second |
| LyricsTime.AsWrittenAgrees | tools/12_make_subtitles.py:8-23 | the timestamps as written equal the carried ones except on the round-up |
| Subtitles.LoadLines | tools/12_make_subtitles.py:25-30 | `d.get("lines") or d.get("lyrics") or []`: the first non-empty list, and no rows exactly when both are empty or missing |
| Subtitles.Entries | tools/12_make_subtitles.py:33-41 | each entry is its number, time line and text line |
| Subtitles.IndexLines | tools/12_make_subtitles.py:34-38 | entries are numbered from 1 in order |
| Subtitles.SrtTimeLines | tools/12_make_subtitles.py:35-39 | one `a --> b` line per row |
| Subtitles.SrtTextLines | tools/12_make_subtitles.py:37-40 | one text line per row, a blank for a row without text |
| Subtitles.LrcLines | tools/12_make_subtitles.py:46-49 | one tagged line per row |
| Subtitles.SrtTimeLinesAsWritten | tools/12_make_subtitles.py:35-39 | the time lines `_write_srt` prints, one per row, equal to the carried ones for every row whose times do not round up to a whole second |
| Subtitles.LrcLinesAsWritten | tools/12_make_subtitles.py:46-49 | the lines `_write_lrc` prints, one per row, equal to the carried ones for every row whose start does not round up to a whole second |
| Subtitles.WriteSrtAgrees | tools/12_make_subtitles.py:32-42 | when no time rounds up, the SRT text written (`Subtitles.WriteSrtAsWritten`) is the one with carried timestamps (`Subtitles.WriteSrt`) |
| Subtitles.WriteLrcAgrees | tools/12_make_subtitles.py:44-50 | when no start rounds up, the LRC text written (`Subtitles.WriteLrcAsWritten`) is the one with carried tags (`Subtitles.WriteLrc`) |
| Subtitles.Overlay | tools/12_make_subtitles.py:52-55 | the overlay holds every row's times and unstripped text, in order |
| Subtitles.MakeSubtitles | tools/12_make_subtitles.py:57-77 | `main` stops exactly when both keys give no rows; otherwise it writes the loaded rows as `_write_lrc` and `_write_srt` print them, round-ups left uncarried, with an overlay item per row |
| SubtitleReadBack.MsReadBack | tools/12_make_subtitles.py:35-36 | the time read back from an SRT timestamp is within half a millisecond of the time written |
| SubtitleReadBack.TimeLineParts | tools/14_import_lyrics_v2.py:53-55 | the time line holds one `-->`, which splits it into the two timestamps |
| SubtitleReadBack.MakeSubtitlesSrtReadBack | tools/12_make_subtitles.py:57-77 | the SRT file `main` writes reads back, through `read_srt`, as the rows with text, times to the millisecond, when the texts are readable lines and no time rounds up |
| SubtitleReadBack.MakeSubtitlesLrcReadBack | tools/12_make_subtitles.py:57-77 | the LRC file `main` writes reads back as each row's text and start to the hundredth, when the texts are readable lines and no start rounds up |
| SubtitleReadBack.SrtFileLines | tools/14_import_lyrics_v2.py:43-48 | the lines of the written SRT file fall back into one block per entry |
| SubtitleReadBack.LinesBlocksBack | tools/14_import_lyrics_v2.py:43-48 | lines joined by `\n` with an empty last line are split back into the blocks they make |
| SubtitleReadBack.ReadBlocksEach | tools/14_import_lyrics_v2.py:49-61 | when every block reads, `read_srt` gives the rows read, in order |
| SubtitleReadBack.SrtReadRow | tools/12_make_subtitles.py:32-41 | an entry reads back as its row exactly when the row has text, with that text and both times within half a millisecond |
| SubtitleReadBack.TextLineScans | tools/14_import_lyrics_v2.py:56-58 | an entry's text line is blank exactly when the row has no text; otherwise it is the text as `read_srt` collects it |
| SubtitleReadBack.RowEntry | tools/14_import_lyrics_v2.py:50-60 | entry `k` of the file is a block that reads back as its row's reading |
| SubtitleReadBack.WriteSrtReadBack | tools/14_import_lyrics_v2.py:42-61 | `read_srt` over the lines of the file that `_write_srt` writes succeeds, and gives one row per row with text, in order |
| SubtitleReadBack.SrtReadRowsAll | tools/12_make_subtitles.py:32-42 | when every row has text, every row comes back, in order, with its text and with both times within half a millisecond |
| SubtitleReadBack.SrtReadRowsMembers | tools/12_make_subtitles.py:37-40 | a row read back is the reading of a row with text; rows without text are dropped |
| SubtitleReadBack.CsReadBack | tools/12_make_subtitles.py:47 | the time read back from an LRC tag is within half a hundredth of the time written |
| SubtitleReadBack.LrcStampBody | tools/14_import_lyrics_v2.py:29 | `mm:ss.xx` with non-negative fields is what the tag pattern matches, and holds no bracket and no line break |
| SubtitleReadBack.LrcReadCue | tools/12_make_subtitles.py:46-49 | a row's LRC line reads back as its start to the hundredth and its text, or as nothing when the row has no text |
| SubtitleReadBack.LrcLineReads | tools/14_import_lyrics_v2.py:28-34 | the LRC line of a row reads back as that pair |
| SubtitleReadBack.LrcCuesBack | tools/14_import_lyrics_v2.py:28-34 | `read_lrc` collects, line after line, the pair of each row with text |
| SubtitleReadBack.WriteLrcReadBack | tools/14_import_lyrics_v2.py:26-40 | over the lines of the file `_write_lrc` writes, `read_lrc` collects the pair of every row with text, in order, and its rows are those pairs sorted |
| SubtitleReadBack.LrcReadCuesAll | tools/12_make_subtitles.py:44-50 | when every row has text, every row gives its pair, in order, with its text and its start to the hundredth |
| LyricsImport.ParseTimeInAgree | tools/10_import_lyrics.py:16-31 | the `parse_time` of each version is the one of its file, and the two read every text alike |
| LyricsImport.TagTime | tools/14_import_lyrics_v2.py:29-33 | every tag `findall` returns is a time `parse_time` reads, and the time is not negative, so the `tt is not None` test never drops a tag |
| LyricsImport.TagParts | tools/14_import_lyrics_v2.py:7-8 | cleaning a tag's inside and splitting it on `:` gives its minutes and its seconds |
| LyricsImport.MinutesSeconds | tools/14_import_lyrics_v2.py:13-15 | the fields of a tag read as minutes times 60 plus the seconds, not negative |
| LyricsImport.SecondsTextParses | tools/14_import_lyrics_v2.py:14 | `float` reads the seconds of a tag as a number that is not negative |
| LyricsImport.Find | tools/14_import_lyrics_v2.py:29 | where a character first occurs, if it does |
| LyricsImport.FindFirst | tools/14_import_lyrics_v2.py:29 | no earlier occurrence comes before the one found |
| LyricsImport.TagEnd | tools/14_import_lyrics_v2.py:29 | the closing bracket of a tag at the front, when the front is a tag |
| LyricsImport.TagEndFinds | tools/14_import_lyrics_v2.py:29 | a tag at the front is found exactly, since its inside holds no `]` |
| LyricsImport.Tags | tools/14_import_lyrics_v2.py:29 | the insides of the tags, each a well-formed tag body, found left to right without overlap |
| LyricsImport.HasTagShift | tools/14_import_lyrics_v2.py:22-29 | without a tag at the front, a text holds a tag exactly when its tail does |
| LyricsImport.TagsFound | tools/14_import_lyrics_v2.py:22-29 | `findall` returns something exactly when `search` finds a tag |
| LyricsImport.RemoveBrackets | tools/14_import_lyrics_v2.py:30 | `re.sub(r"\[.*?\]", "")` keeps no character it was not given |
| LyricsImport.RemoveBracketsLacks | tools/14_import_lyrics_v2.py:30 | removing bracketed parts never brings in a character |
| LyricsImport.RemoveBracketsNone | tools/14_import_lyrics_v2.py:30 | text without `[` is left as it is |
| LyricsImport.RemoveBracketsFront | tools/14_import_lyrics_v2.py:30 | a bracketed part at the front goes, whatever follows it |
| LyricsImport.RemoveBracketsLeavesNoPair | tools/14_import_lyrics_v2.py:30 | within one line nothing bracketed is left: no `[` is followed by a `]` |
| LyricsImport.TagCue | tools/14_import_lyrics_v2.py:31-34 | a tag gives a pair exactly when the line has text and the tag reads as the pair's time |
| LyricsImport.TagCues | tools/14_import_lyrics_v2.py:31-34 | the pairs of one line all carry the line's text, at most one per tag |
| LyricsImport.TagCuesMembers | tools/14_import_lyrics_v2.py:31-34 | a pair comes from a line exactly when the line has text and one of its tags reads as the pair's time |
| LyricsImport.LrcCues | tools/14_import_lyrics_v2.py:28-34 | every pair collected has text |
| LyricsImport.LrcCuesMembers | tools/14_import_lyrics_v2.py:28-34 | a pair is collected exactly when some line gives it |
| LyricsImport.TagCuesCount | tools/14_import_lyrics_v2.py:31-34 | a line gives one pair per tag when it has text, and none otherwise |
| LyricsImport.ReadLrc | tools/14_import_lyrics_v2.py:26-40 | the rows carry exactly the collected pairs (as a multiset), sorted by time and then text |
| LyricsImport.ReadLrcTimeline | tools/14_import_lyrics_v2.py:36-39 | each row ends where the next starts, and the last lasts three seconds |
| LyricsImport.ReadLrcRows | tools/14_import_lyrics_v2.py:35-39 | the rows start in order, end no earlier than they start, and all have text |
| LyricsImport.SortedCueRows | tools/14_import_lyrics_v2.py:35-39 | sorted pairs with text make rows that start in order, end no earlier than they start, and have text |
| LyricsImport.CueRowsOrdered | tools/14_import_lyrics_v2.py:37-39 | rows of ordered pairs start in order |
| LyricsImport.CueRowsTimeline | tools/14_import_lyrics_v2.py:37-39 | rows of ordered pairs with text end no earlier than they start |
| LyricsImport.SortCues | tools/14_import_lyrics_v2.py:35 | `res.sort()` keeps the pairs and puts them in order |
| LyricsImport.CueRowsCues | tools/14_import_lyrics_v2.py:36-39 | the rows carry the pairs they were made from |
| LyricsImport.ReadLrcAgree | tools/10_import_lyrics.py:33-49 | the two versions read an LRC file alike |
| LyricsImport.NonBlankStripNewlines | tools/14_import_lyrics_v2.py:45 | removing trailing newlines keeps a non-blank line's text |
| LyricsImport.Blocks | tools/14_import_lyrics_v2.py:43-48 | every block is a non-empty run of lines |
| LyricsImport.BlocksKeepLines | tools/14_import_lyrics_v2.py:43-48 | the blocks hold every non-blank line, with its newlines stripped, in order, and nothing else |
| LyricsImport.ScanLineFacts | tools/14_import_lyrics_v2.py:52-58 | a line fails exactly when it holds `-->` but does not split into two parts there; a text line it collects is not empty |
| LyricsImport.ScanLinesFails | tools/14_import_lyrics_v2.py:52-58 | the scan of a block fails exactly when one of its lines is such a bad `-->` line |
| LyricsImport.ScanLinesTexts | tools/14_import_lyrics_v2.py:56-58 | the text lines of a scan of non-blank lines are not empty |
| LyricsImport.ReadBlocksFails | tools/14_import_lyrics_v2.py:50-60 | reading the blocks fails exactly when one of their lines is a bad `-->` line |
| LyricsImport.ReadSrtFails | tools/14_import_lyrics_v2.py:42-61 | `read_srt` (`LyricsImport.ReadSrt`) raises exactly when a non-blank line holds `-->` but does not split into two parts at it |
| LyricsImport.ReadBlocksAgree | tools/10_import_lyrics.py:63-79 | where the first version reads the blocks, the second reads the same rows |
| LyricsImport.ReadSrtAgree | tools/10_import_lyrics.py:51-79 | where `tools/10` reads an SRT file, `tools/14` reads the same rows |
| LyricsImport.ReadSrtTexts | tools/14_import_lyrics_v2.py:59-60 | every row `read_srt` gives has text |
| LyricsImport.ReadTimelessBlock | tools/10_import_lyrics.py:77-78 | a block whose `-->` line has two times that do not parse: the first version fails on `round(None, 3)`, the second gives no row |
| LyricsImport.ReadSrtV1Counterexample | tools/10_import_lyrics.py:77-78 | on a two-line file whose `-->` line has no readable times, `tools/10` fails where `tools/14` gives no rows |
| LyricsImport.TimelessSrtReads | tools/10_import_lyrics.py:65-78 | what each version makes of that file |
| LyricsFormat.NonBlankTexts | tools/14_import_lyrics_v2.py:64 | the texts of the non-blank lines, stripped, in order, no more of them than lines |
| LyricsFormat.NonBlankTextsMembers | tools/14_import_lyrics_v2.py:64 | the texts are exactly the stripped non-blank lines |
| LyricsFormat.NonBlankTextsStripped | tools/14_import_lyrics_v2.py:64 | each text is already stripped and not empty |
| LyricsFormat.NonBlankTextsEmpty | tools/14_import_lyrics_v2.py:64-66 | there is no text exactly when every line is blank |
| LyricsFormat.TxtTotal | tools/14_import_lyrics_v2.py:67-68 | the duration is positive and leaves each line at least its share: the song's length when positive, else `max(180, 2n)` in `tools/14`; `max(total, 2n)` in `tools/10` |
| LyricsFormat.TxtTotalAgree | tools/10_import_lyrics.py:87 | the two versions agree once the song is long enough for 2 seconds a line, and differ on a short text for a song of unknown length |
| LyricsFormat.ReadTxt | tools/14_import_lyrics_v2.py:63-74 | one row per non-blank line, in order, with its text; the rows start at 0, lie back to back and share one length |
| LyricsFormat.ReadTxtSpans | tools/14_import_lyrics_v2.py:69-73 | the rows' times are the only equal back-to-back cut of the duration: any rows that start at 0, lie back to back, share one length and end at the duration have the same times |
| LyricsFormat.ReadTxtEmpty | tools/14_import_lyrics_v2.py:65-66 | a file of blank lines gives no rows; any other gives rows ending at a positive time |
| LyricsFormat.RefTotal | tools/14_import_lyrics_v2.py:76-81 | the time of the reference's last frame, or 0 when there is no reference or it has no frames |
| LyricsFormat.DetectFormatMeans | tools/14_import_lyrics_v2.py:21-24 | `LyricsFormat.DetectFormat` gives LRC exactly when the head holds a `[m:ss]` tag, SRT exactly when it holds none but has a `-->`, plain text otherwise |
| LyricsFormat.DetectFormatV1 | tools/10_import_lyrics.py:96-105 | a known suffix wins; otherwise any `[` and `]` make LRC, else a `-->` makes SRT, else plain text |
| LyricsFormat.TagHasBrackets | tools/10_import_lyrics.py:103 | a head holding a tag holds a `[` and a `]` |
| LyricsFormat.DetectFormatRefines | tools/10_import_lyrics.py:101-105 | without a trusted suffix, `tools/10` takes for LRC every head `tools/14` takes for LRC, and takes for plain text only heads `tools/14` takes for plain text |
| LyricsFormat.NoDigitAfterBracket | tools/14_import_lyrics_v2.py:22 | a head where no `[` is followed by a digit holds no tag |
| LyricsFormat.SectionHeadDiffers | tools/10_import_lyrics.py:103 | a head of section names such as `[Verse]` is LRC for `tools/10` and plain text for `tools/14` |
| LyricsFormat.ImportLyricsFails | tools/14_import_lyrics_v2.py:94-104 | `tools/14` stops with an exception exactly on a file taken for SRT that holds a `-->` line not splitting in two |
| LyricsFormat.ImportLyricsTexts | tools/14_import_lyrics_v2.py:99-106 | every row `tools/14` writes carries text |
| Timeline.EqualSlices | tools/14_import_lyrics_v2.py:69-72 | `n` spans that start at 0, lie back to back, each last `total / n` and end at `total` |
| Timeline.EqualSlicesUnique | tools/11_align_lyrics.py:167-168 | spans that start at 0, lie back to back and share one length are the equal slices of their total |
| Timeline.SlicesCover | tools/14_import_lyrics_v2.py:69-72 | `n` slices of `total / n` make up `total` |
| Timeline.StartsAtMultiples | tools/14_import_lyrics_v2.py:72 | in back-to-back spans of length `d` from 0, the `k`-th starts at `k * d` |
| Timeline.RowsOf | tools/14_import_lyrics_v2.py:71-73 | one row per span and line, pairwise, with the span's times and the line's text |
| LyricsAlign.TrueIndices | tools/11_align_lyrics.py:26 | `np.where(mask)[0]`: the true indices, strictly ascending, each true |
| LyricsAlign.TrueIndicesComplete | tools/11_align_lyrics.py:26 | every true index is listed |
| LyricsAlign.FalseBetween | tools/11_align_lyrics.py:30-32 | between two neighbouring listed indices every frame is false |
| LyricsAlign.FalseAfter | tools/11_align_lyrics.py:33 | after the last listed index every frame is false |
| LyricsAlign.FalseBefore | tools/11_align_lyrics.py:29 | before the first listed index every frame is false |
| LyricsAlign.NoTrueNoRun | tools/11_align_lyrics.py:27-28 | a mask with no true frame has no run |
| LyricsAlign.VoicedStep | tools/11_align_lyrics.py:30-32 | a gap between neighbouring true indices closes the open run and opens one at the later index; otherwise the run grows |
| LyricsAlign.CloseGap | tools/11_align_lyrics.py:31-32 | a gap after an index closes a maximal run there |
| LyricsAlign.VoicedRuns | tools/11_align_lyrics.py:26-33 | the runs read off the true indices are exactly the maximal runs of true frames, in order |
| LyricsAlign.CloseLast | tools/11_align_lyrics.py:33 | the last true index ends the last maximal run |
| LyricsAlign.RunsEmptyIffSilent | tools/11_align_lyrics.py:27-28 | a list of all maximal runs is empty exactly when no frame is true |
| LyricsAlign.VoicedMask | tools/11_align_lyrics.py:25 | a frame is voiced exactly when its pitch is a number above 0 |
| LyricsAlign.MinDurEnd | tools/11_align_lyrics.py:39-40 | the end lengthened so that the phrase lasts at least 0.4 s, unchanged when it already does |
| LyricsAlign.VoicedSegments | tools/11_align_lyrics.py:21-42 | one segment per maximal run of voiced frames, in order, from its first frame's time, ending at its last frame's time or later so as to last at least 0.4 s; the segments are those of the run-by-run definition `Segments` |
| LyricsAlign.SegmentsOfRuns | tools/11_align_lyrics.py:26-34 | any list of all the maximal voiced runs, in order, gives the same segments as the run-by-run definition |
| LyricsAlign.VoicedSegmentsEmpty | tools/11_align_lyrics.py:23-28 | no segments exactly when no frame is voiced, an empty track included |
| LyricsAlign.LongestIndex | tools/11_align_lyrics.py:141 | the first of the longest spans |
| LyricsAlign.Bisect | tools/11_align_lyrics.py:142-145 | the span replaced by its two halves, meeting at its midpoint, the others kept in place |
| LyricsAlign.BisectLength | tools/11_align_lyrics.py:142-145 | bisecting keeps the total length |
| LyricsAlign.BisectContiguous | tools/11_align_lyrics.py:142-145 | bisecting keeps back-to-back spans back to back |
| LyricsAlign.SplitLongest | tools/11_align_lyrics.py:139-145 | the loop reaches `n` spans and keeps the first start and the last end |
| LyricsAlign.SplitLongestKeeps | tools/11_align_lyrics.py:139-145 | splitting keeps the total length, and back-to-back spans stay back to back |
| LyricsAlign.BagSpan | tools/11_align_lyrics.py:119-122 | a closed bag becomes one span from its first segment's start to its last one's end, lasting at least 0.4 s |
| LyricsAlign.MergeCount | tools/11_align_lyrics.py:113-123 | the bags closed from a segment on number at most the remaining segments divided by the bag size, rounded up |
| LyricsAlign.MergeFirst | tools/11_align_lyrics.py:116-119 | the first bag starts at the first segment |
| LyricsAlign.CeilCovers | tools/11_align_lyrics.py:113 | bags of `ratio` rounded up cover the segments |
| LyricsAlign.MergeAtMost | tools/11_align_lyrics.py:113-127 | with more segments than lines, the bags never outnumber the lines, so the loop that joins the last two is never entered |
| LyricsAlign.PopMerge | tools/11_align_lyrics.py:125-127 | the joining loop leaves at most `n` spans: with more, the first `n - 1` stay as they are and the `n`-th keeps its start and ends where the last span ended; with no more, nothing changes |
| LyricsAlign.HalveLast | tools/11_align_lyrics.py:128-131 | the halving loop reaches `n` spans and keeps the first start and the last end |
| LyricsAlign.MergeDown | tools/11_align_lyrics.py:111-132 | the merge branch gives one span per line, from the first segment's start to no earlier than the last one's end |
| LyricsAlign.MergeLast | tools/11_align_lyrics.py:118-122 | the last bag ends no earlier than the last segment |
| LyricsAlign.SplitOrMerge | tools/11_align_lyrics.py:96-146 | no spans for no lines; otherwise one per line, the segments themselves when they match the lines, from the first segment's start to no earlier than the last one's end |
| LyricsAlign.SplitOrMergeDummy | tools/11_align_lyrics.py:100-103 | without segments the lines get two seconds each, back to back from 0 |
| LyricsAlign.SplitOrMergeSplits | tools/11_align_lyrics.py:133-146 | when segments are split, the last end and the total length are kept, and back-to-back segments stay back to back |
| LyricsAlign.NormRow | tools/11_align_lyrics.py:63-70 | the text is kept; the times are copied only when both keys are there, so a `start` that does not convert leaves both out and an `end` that does not convert leaves `start` alone |
| LyricsAlign.NormRows | tools/11_align_lyrics.py:56-71 | the rows with a text, normalised, in order |
| LyricsAlign.NormRowsCount | tools/11_align_lyrics.py:61-62 | one row is kept per row with a text |
| LyricsAlign.NormRowsFrom | tools/11_align_lyrics.py:61-70 | every kept row comes from a row with that text |
| LyricsAlign.DetectInputRows | tools/11_align_lyrics.py:44-71 | `KeyError` exactly when both keys are missing; the `"lines"` list when there is one, even empty, else the `"lyrics"` list |
| LyricsAlign.Timed | tools/11_align_lyrics.py:76-81 | the rows with a start, no more of them than rows |
| LyricsAlign.ByStart | tools/11_align_lyrics.py:76-82 | the rows with a start, rearranged in order of start |
| LyricsAlign.Trimmed | tools/11_align_lyrics.py:84-94 | for sorted rows, each keeps its start and text, and its end is cut to the next start and then lengthened to 0.4 s |
| LyricsAlign.AssignFromTimed | tools/11_align_lyrics.py:73-94 | one row per row with a start, in order of start, with the start and text of the sorted row, each lasting at least 0.4 s, its end trimmed to the next start and lengthened to 0.4 s |
| LyricsAlign.AssignFromTimedEnds | tools/11_align_lyrics.py:89-92 | an assigned end is the row's own end, the next start or the start plus 0.4 s; it never passes the next start unless lengthened; it is never later than the own end or the 0.4 s minimum; with no overlap it is the later of the two |
| LyricsAlign.AssignFromTimedApart | tools/11_align_lyrics.py:89-92 | rows at least 0.4 s apart do not overlap once assigned |
| LyricsAlign.KeysSort | tools/11_align_lyrics.py:82 | sorting rows rearranges their starts and texts alike |
| LyricsAlign.AssignFromTimedPermutes | tools/11_align_lyrics.py:76-94 | the assigned rows are the rows with a start, rearranged, with the same starts and texts |
| LyricsAlign.HasTimedIffStarts | tools/11_align_lyrics.py:159 | a normalised row has an end only with a start, so the rows count as timed exactly when one of them has a start |
| LyricsAlign.Lengthened | tools/11_align_lyrics.py:171-176 | each line takes its span, lengthened to at least 0.4 s, with its text |
| LyricsAlign.DummySpans | tools/11_align_lyrics.py:165-168 | equal back-to-back slices of `max(180, 2n)` seconds from 0 |
| LyricsAlign.UntimedRows | tools/11_align_lyrics.py:163-176 | one row per line, with its text, lasting at least 0.4 s, the first from the first segment's start |
| LyricsAlign.LengthenedKeeps | tools/11_align_lyrics.py:172-173 | spans of at least 0.4 s are left as they are |
| LyricsAlign.DummySpansLong | tools/11_align_lyrics.py:167-168 | the dummy slices are each at least 2 s long |
| LyricsAlign.UntimedWithoutSegments | tools/11_align_lyrics.py:165-169 | without segments the lines take the equal slices of `max(180, 2n)` seconds; `split_or_merge`'s own stand-in is never reached from `main` |
| LyricsAlign.AlignLyrics | tools/11_align_lyrics.py:148-178 | fails exactly when neither key is there; timed input gives `assign_from_timed` of the rows; untimed input gives the lines laid over the voiced segments of the track; every row lasts at least 0.4 s |
| CommentCommon.EndOr | tools/07_event_comment_cards.py:19 | the end is the event's own when it has one, and otherwise 0.2 s after its start |
| CommentCommon.ReadingAsWritten | tools/07_event_comment_cards.py:12-15 | the minutes and the hundredths printed stand for the time within half a hundredth, and the hundredths can reach a whole minute |
| CommentCommon.ReadingOf | tools/07_event_comment_cards.py:12-15 | with a round-up to 60.00 carried into the minutes, the time within half a hundredth and a seconds field below 60 |
| CommentCommon.TimeTextAgrees | tools/03_render_comments_txt.py:13-16 | the printed time as written and the carried one agree exactly when the seconds do not round up to 60.00 |
| CommentCommon.ReadReading | tools/14_import_lyrics_v2.py:13-15 | an `mm:ss.xx` reading whose seconds fit reads back as the seconds it stands for |
| CommentCommon.HundredthsField | tools/14_import_lyrics_v2.py:14 | a two-digit fraction field reads as hundredths |
| CommentCommon.TimeTextRoundTrip | tools/07_event_comment_cards.py:12-15 | with the carry, a printed time reads back, with the lyric importers' `parse_time`, within half a hundredth of the time |
| CommentCommon.MinuteCarryCounterexample | tools/03_render_comments_txt.py:13-16 | as written, 59.999 s is printed as `00:60.00`: minute 0 and a seconds field of 60 |
| CommentCommon.MinuteCarriedExample | tools/03_render_comments_txt.py:13-16 | with the carry, 59.999 s is printed as `01:00.00` |
| CommentCards.AdviceForNames | tools/07_event_comment_cards.py:20-34 | the choice of advice and the names of the known types are inverse: each known advice is chosen by exactly its own type, the fallback by exactly the types that name none |
| CommentCards.AdviceTextsDistinct | tools/07_event_comment_cards.py:23-34 | no two advice texts read alike |
| CommentCards.MessageLayout | tools/07_event_comment_cards.py:17-34 | a message (`CommentCards.Message`) begins with the printed start, which reads back within half a hundredth of the event's start, and ends with the advice for the event's type |
| CommentCards.Limit | tools/07_event_comment_cards.py:39-40 | a prefix of the events: `MAX_ITEMS` of them when positive and fewer than the events, all of them otherwise |
| CommentCards.CardOf | tools/07_event_comment_cards.py:44-49 | a card carries its event's start |
| CommentCards.Ordered | tools/07_event_comment_cards.py:38 | the events rearranged, in order of start, a missing start counting as 0 |
| CommentCards.Kept | tools/07_event_comment_cards.py:38-40 | the events that get a card are input events, in order of start, as many as the cut allows, and nothing that starts earlier than one of them is left out; with no cut every event is kept |
| CommentCards.PrefixFacts | tools/07_event_comment_cards.py:39-40 | a prefix of the sorted events is sorted |
| CommentCards.PrefixEarliest | tools/07_event_comment_cards.py:38-40 | a prefix of the sorted events holds every event that starts earlier than one of its members |
| CommentCards.OrderedMembers | tools/07_event_comment_cards.py:38 | the sorted events are the input events, none lost and none added |
| CommentCards.CardsOf | tools/07_event_comment_cards.py:43-49 | one card per kept event, in their order |
| CommentCards.Cards | tools/07_event_comment_cards.py:36-49 | as many cards as the cut keeps events |
| CommentCards.CardsOk | tools/07_event_comment_cards.py:45 | the cards are made when every event has a start, and a failure is always caused by an event without one; when nothing is cut, that is exactly when some event has no start |
| CommentCards.CardsSorted | tools/07_event_comment_cards.py:38-49 | the cards are in order of their starts |
| CommentCards.CardsFromEvents | tools/07_event_comment_cards.py:43-49 | every card is the card of one of the events |
| CommentCards.CardsCoverEvents | tools/07_event_comment_cards.py:39-49 | when nothing is cut, every event has its card |
| CommentCards.CardsEarliest | tools/07_event_comment_cards.py:38-49 | the cut keeps the earliest events: an event that starts before some card has a card of its own |
| CommentCards.CardsLines | tools/07_event_comment_cards.py:53-56 | the heading and then one line per card |
| CommentCards.MessageNoBreaks | tools/07_event_comment_cards.py:17-34 | a message is one line |
| CommentCards.CardsLinesNoBreaks | tools/07_event_comment_cards.py:54-56 | every line written to `comments.txt` is one line |
| CommentCards.CardsTextLines | tools/07_event_comment_cards.py:53-56 | read line by line, `comments.txt` gives back the heading and one `- ` line per card, in the cards' order |
| RenderComments.ToneForNames | tools/03_render_comments_txt.py:25-38 | the choice of comment and the names of the known types are inverse: each known comment is chosen by exactly its own type, the fallback by exactly the types that name none |
| RenderComments.ToneTextsDistinct | tools/03_render_comments_txt.py:27-38 | no two comment texts read alike |
| RenderComments.SharpNotSilent | tools/03_render_comments_txt.py:27-35 | the comments for a sharp note and for a missing voice differ |
| RenderComments.Comment | tools/03_render_comments_txt.py:19-38 | `event_to_comment` fails exactly when the event has no start or no type, and on the start first |
| RenderComments.CommentLayout | tools/03_render_comments_txt.py:19-38 | a comment begins with the printed start, which reads back within half a hundredth of the event's start, and ends with the text for the event's type |
| RenderComments.Collect | tools/03_render_comments_txt.py:42-44 | a collection that succeeds holds one result per element |
| RenderComments.CollectOk | tools/03_render_comments_txt.py:42-44 | the collection succeeds exactly when every element does, and then holds each result in place |
| RenderComments.CollectFirstError | tools/03_render_comments_txt.py:43-44 | a failed collection carries the error of the first element that failed |
| RenderComments.Shown | tools/03_render_comments_txt.py:51 | a prefix of at most 200 comments, all of them when there are no more |
| RenderComments.Lines | tools/03_render_comments_txt.py:50-52 | the heading and then one line per shown comment |
| RenderComments.RenderLines | tools/03_render_comments_txt.py:40-52 | the text shows the heading and then the comments of the first 200 events, in the events' own order |
| RenderComments.RenderFirstError | tools/03_render_comments_txt.py:20-44 | when the script (`RenderComments.Render`) stops, it is for the first event without a start or a type, and for the first of those two keys that event lacks |
| RenderComments.RenderNeedsAll | tools/03_render_comments_txt.py:43-44 | the script runs exactly when every event has a start and a type, even those past the first 200 |
| RenderComments.RenderCap | tools/03_render_comments_txt.py:51 | only the first 200 events show: when the script runs, dropping the rest changes nothing in the text |
| Feedback.Voiced | SingingApp/feedback.py:14-15 | no more samples are kept than were given |
| Feedback.VoicedMembers | SingingApp/feedback.py:15 | a sample is kept exactly when it is a number in the input |
| Feedback.VoicedAppend | SingingApp/feedback.py:15 | filtering a concatenation filters each part |
| Feedback.VoicedSkipsSilence | SingingApp/feedback.py:15 | an unvoiced sample in the middle is dropped |
| Feedback.SilenceIgnored | SingingApp/feedback.py:14-15 | an unvoiced sample anywhere changes neither the score nor the comment |
| Feedback.StabilityScore | SingingApp/feedback.py:21-22 | the score lies between 0 and 100 |
| Feedback.GenerateFeedback | SingingApp/feedback.py:9-31 | the score lies between 0 and 100; "not detected" exactly when no sample is a number, and then the score is 0; otherwise the score is the stability score of the numbers and the comment is the band of that score |
| Feedback.ScoreFromDeviation | SingingApp/feedback.py:21-22 | the score is `max(0, 100 - int(10 * sd))` for the standard deviation `sd`, the non-negative root of the variance |
| Feedback.RealSquareBelow | SingingApp/feedback.py:22 | of two non-negative reals, the one with the smaller square is the smaller |
| Feedback.ScoreMonotone | SingingApp/feedback.py:21-22 | more spread never earns a higher score |
| Feedback.BandMonotone | SingingApp/feedback.py:24-29 | a higher score never earns a worse comment |
| Feedback.BandByVariance | SingingApp/feedback.py:21-29 | the best comment exactly when the standard deviation is below 1.6 Hz, the middle one exactly when it is from 1.6 and below 4.1 Hz |
| Feedback.FeedbackByVariance | SingingApp/feedback.py:21-31 | for a take with voiced samples, the best comment exactly when their variance is below 2.56 Hz², the middle one from 2.56 to below 16.81 Hz², the worst one from 16.81 Hz² up |
| Feedback.BandOfRoot | SingingApp/feedback.py:22-29 | the comment for a score of `100 - r`: the best exactly when `r <= 15`, the middle exactly when `15 < r <= 40` |
| Feedback.RootAtMost | SingingApp/feedback.py:22 | the integer square root of `x` is at most `k` exactly when `x < (k + 1)²` |
| Feedback.SumConstant | SingingApp/feedback.py:21 | equal samples sum to their count times the sample |
| Feedback.VarianceConstant | SingingApp/feedback.py:21 | equal samples do not spread at all |
| Feedback.SteadyPitchFullScore | SingingApp/feedback.py:21-25 | a pitch held perfectly steady scores 100 and gets the best comment |
| SongPaths.SongId | tools/_song_paths.py:4-6 | the id is the default, or a non-empty stripped text |
| SongPaths.SongIdStrips | tools/_song_paths.py:6 | a song named with blanks around it is the song named without them |
| SongPaths.SongIdBlank | tools/_song_paths.py:6 | an all-blank `SONG` gives the default, unstripped |
| SongPaths.SongIdStable | tools/_song_paths.py:6 | setting `SONG` to the id chosen chooses it again, when the default has no blanks around it |
| SongPaths.SongIdOf | tools/_song_paths.py:6 | the id chosen when `SONG` is set |
| SongPaths.KeptSegments | tools/_song_paths.py:31 | pathlib keeps no empty and no `.` part of a name |
| SongPaths.ChildPlain | tools/_song_paths.py:31 | a plain name adds exactly itself |
| SongPaths.DifferAt | tools/_song_paths.py:20-39 | paths that differ in a part both have are not inside one another |
| SongPaths.SongLayout | tools/_song_paths.py:17-39 | the layout under the analysis directory of `root`: `export` in the base, and the reference directory is the base exactly for the sample song |
| SongPaths.PathsAliases | tools/_song_paths.py:44-50 | every upper-case key names the same entry as its lower-case one, and `ANA` names the analysis directory |
| SongPaths.FilesInRef | tools/_song_paths.py:25-39 | the three files lie directly in the reference directory under the same names for every song |
| SongPaths.SampleLayout | tools/_song_paths.py:20-24 | the sample song's reference data sits in `analysis/sample01` and its user data in `analysis/user01` |
| SongPaths.OtherLayout | tools/_song_paths.py:30-34 | any other song has everything under `analysis/songs/<song>`, in `ref`, `user` and `export` |
| SongPaths.DirsBelow | tools/_song_paths.py:17-39 | every directory of a plainly named song lies below the analysis directory, in the part that belongs to the song |
| SongPaths.SongsApart | tools/_song_paths.py:30-34 | two different plainly named songs share no directory, and none of one song's directories lies inside another's |
| SongPaths.UserApartFromRef | tools/_song_paths.py:21-33 | the user directory and the reference directory of a song are kept apart |
| Numeric.RoundHalfEven | tools/06_key_offset_check.py:116-119 | Python's `round(x)`: an integer within half of `x`, a tie going to the even one |
| Numeric.RoundHalfEvenUnique | tools/02_compare_with_reference.py:86 | those two properties single out one integer, so the definition is Python's rounding |
| Numeric.Trunc | tools/12_make_subtitles.py:10-19 | Python's `int(x)` on a float: truncation toward zero, from either side |
| Numeric.Ceil | tools/01_make_events_and_summary.py:110 | `math.ceil`: the least integer not below `x` |
| Numeric.FloorSqrt | SingingApp/feedback.py:21-22 | the integer square root: the greatest natural number whose square does not exceed `x` |
| Numeric.FloorSqrtMonotone | SingingApp/feedback.py:21-22 | a larger radicand never has a smaller integer square root |
| Numeric.Variance | tools/01_make_events_and_summary.py:102 | the population variance is not negative |
| Numeric.CountTrue | tools/01_make_events_and_summary.py:125-126 | `sum(mask)` counts no more than the mask's length |
| Numeric.Fraction | tools/01_make_events_and_summary.py:124-126 | a share of a whole lies in `[0, 1]`, and is 0 when the whole is empty |
| Numeric.SharesOfWhole | tools/05_overall_summary.py:67-69 | three parts that make up a whole make up shares summing to one |
| Stats.AscendingEnds | tools/01_make_events_and_summary.py:107 | the ends of the sorted samples are the minimum and the maximum, found independently |
| Stats.AscendingShift | tools/06_key_offset_check.py:120 | sorting commutes with subtracting a constant from every sample |
| Stats.MedianShift | tools/06_key_offset_check.py:120-121 | the median of shifted samples is the shifted median |
| Stats.VarianceShift | tools/06_key_offset_check.py:120-122 | shifting every sample by the same amount leaves the spread unchanged |
| Stats.InterpolateRank | tools/01_make_events_and_summary.py:108-113 | the value at a fractional rank lies between the order statistics around it, and is the end sample at either end |
| Stats.InterpolateMonotone | tools/01_make_events_and_summary.py:108-113 | interpolated order statistics grow with the rank |
| Stats.Percentile | tools/01_make_events_and_summary.py:104-113 | 0 for no samples; otherwise between the least and the greatest sample, and equal to them at 0 and 1 |
| Stats.PercentileMonotone | tools/01_make_events_and_summary.py:122-128 | a higher quantile is never below a lower one |
| Stats.MedianIsPercentile | tools/01_make_events_and_summary.py:122 | the middle sample (or the mean of the two middle ones) is the 50th percentile |
| Sorting.Sort | tools/14_import_lyrics_v2.py:35 | the sort keeps the length |
| Sorting.SortFacts | tools/14_import_lyrics_v2.py:35 | the sort returns a permutation of its input, ordered when the order is total |
| Sorting.SortByKey | tools/02_compare_with_reference.py:137 | `sort(key=...)` returns a permutation of its input, ordered by key |
| Sorting.SortByKeyStable | tools/07_event_comment_cards.py:38 | the sort is stable: elements of equal key keep their relative order |
| Text.Split | tools/14_import_lyrics_v2.py:8 | `split` gives at least one part |
| Text.JoinSplit | tools/14_import_lyrics_v2.py:54 | joining the parts with the separator gives back the string |
| Text.SplitFindsSeparator | tools/14_import_lyrics_v2.py:53-54 | the string splits into more than one part exactly when it holds the separator |
| Text.Strip | tools/14_import_lyrics_v2.py:7 | `strip()` shortens and leaves no blank at either end |
| Text.StripIdempotent | tools/14_import_lyrics_v2.py:64 | stripping twice is stripping once |
| Text.StripEmpty | tools/14_import_lyrics_v2.py:45-64 | `not s.strip()` exactly when every character is whitespace |
| Text.SplitLines | tools/14_import_lyrics_v2.py:96 | `splitlines()` gives lines with no boundary in them, and none exactly for empty text |
| Text.JoinSplitLines | tools/14_import_lyrics_v2.py:96 | joining the lines with `\n` and restoring a final `\n` gives back text whose lines end in `\n` |
| Text.SplitJoinedLines | tools/12_make_subtitles.py:42-50 | lines written each ended by `\n` and read back with `splitlines` come back as they were |
| Text.Head | tools/14_import_lyrics_v2.py:94 | the first lines of the file are a prefix of its text |
| Text.NatToString | tools/07_event_comment_cards.py:54 | `str(n)` is digits without a leading zero |
| Text.NatToStringValue | tools/07_event_comment_cards.py:54 | reading the digits of `str(n)` gives `n` back |
| Text.FormatInt | tools/07_event_comment_cards.py:15 | `f"{n:02d}"` of a non-negative number is digits, at least as wide as asked |
| Text.FormatIntValue | tools/12_make_subtitles.py:15 | the padded digits read back as the number |
| Text.ParseFloatDecimal | tools/14_import_lyrics_v2.py:11-14 | `float("w.f")` is `w + f / 10^len(f)` |
| Text.ParseIntDigits | tools/14_import_lyrics_v2.py:11-14 | `int` reads digits as their value |
| Text.ParseFormatInt | tools/14_import_lyrics_v2.py:11 | `int(f"{n:02d}")` is `n`, sign included |

## Left out

- Reading and writing files, JSON and environment variables, and `print`: the parsed tracks, rows and settings are inputs, and the written rows and texts are results.
- The `mkdir` calls (`tools/_song_paths.py:41-42` and at the top of the scripts), because they only touch the file system.
- `Path(__file__).resolve().parents[1]` becomes the parameter `root`. Path parts are modelled as pathlib keeps them, for plain names.
- `round(x, 3)`, `round(x, 1)` and the other output rounding of times and cents: values are written exact. Python's exact float formatting is left out too. The rounding that picks a result is modelled: `round` for frame counts, octaves and semitones, and the share compared with 0.85.
- Floating-point error: floats are exact `real`s. `math.log2` is a parameter, of which only what the cited lines need is assumed.
- `np.std` is not computed. Where the tools write a standard deviation (`std_cents` at `tools/01_make_events_and_summary.py:123` and `tools/05_overall_summary.py:126`, the text line at `tools/05_overall_summary.py:147`, and `std_cents` and `wrapped_std_cents` at `tools/06_key_offset_check.py:159-164`), the summaries return the variance, its square. Where the tools decide on it, the decision is stated on the variance: `std > 120` is `variance > 14400`, and `int(10 * std)` is the integer square root of `100 * variance`.
- `make_advice_ja` (`tools/06_key_offset_check.py:45-95`), because it picks sentences with a seeded `random.sample`. The Japanese summary text of `tools/06` and `tools/05` is left out as well.
- A JSON `null` `sr` or `hop`: the model's pitch files hold a number or nothing, and nothing stands for a missing key, which takes the default. In `tools/05_overall_summary.py:59` a `null` `hop` is falsy and takes the median-spacing branch, as a zero `hop` does; a `null` `sr` with a non-zero `hop` raises `TypeError`. Neither is modelled. A non-list events file is left out too.
- `avg_cents` in `tools/07`: it is read but never used. `float()` of a start that is not a number is left out too.
- RenderComments.Comment: the model returns the comment whatever `avg_cents` holds. `tools/03_render_comments_txt.py:23` calls `float(ev.get("avg_cents", 0.0))` before the value is ever used, so a JSON `null` there raises `TypeError` and text that is not a number raises `ValueError`. Neither failure is modelled.
- A frame without an `f0_hz` key: the model reads it as unvoiced (`Frame.f0` is `None`), as the `.get` at `tools/01_make_events_and_summary.py:70-71`, `tools/02_compare_with_reference.py:34` and `tools/11_align_lyrics.py:18` does. The loaders at `tools/05_overall_summary.py:21`, `tools/06_key_offset_check.py:17` and `tools/08_autosync_offset.py:18`, `:71` and `:73` index `x["f0_hz"]` instead and raise `KeyError`; that failure is not modelled.
- `tools/07_event_comment_cards.py:38` sorts by `x.get("start", 0.0)`, so a JSON `null` start would make the comparison raise. The model orders a missing start as 0 and fails on the start only when the card is made.
- `str(r["text"])` in `tools/11` and the lower-casing of the suffix in `tools/10`: texts and suffixes are given as strings.
- `GAP_SEC` and `total_end` in `tools/11` are passed around but never change a result. They are not parameters of the model.
- In `tools/12` a row without a text, or with a `null` one, has the empty text; the overlay would carry the `null` itself. A row without `start` or `end` raises `KeyError` there, which is left out: every row has both times.
- `int()` and `float()` parse a sign, ASCII digits and one optional fraction. Exponents, `inf`, `nan`, underscores and non-ASCII digits are left out. The same ASCII-only digits stand for the `\d` of the regular expressions of `tools/10_import_lyrics.py:37` and `:75` and `tools/14_import_lyrics_v2.py:22`, `:29` and `:57`, which in Python also match other Unicode decimal digits.
- SubtitleReadBack.WriteSrtReadBack: proved for rows with non-negative times, and texts that are one line, neither all digits nor holding `-->`, and with no blank at either end. Those are the texts `read_srt` keeps as they are.
- SubtitleReadBack.WriteLrcReadBack: proved for rows with non-negative starts and texts with no `[`, no line break and no blank at either end.
- CommentCards.CardsTextLines: the line-by-line read back of `comments.txt` is proved for `tools/07`. The file of `tools/03` has the same shape (`RenderComments.Lines`).
- LyricsTime.SrtTimestampRoundTrip and LyricsTime.LrcTagRoundTrip: stated for non-negative times only. A negative time gives negative fields, which the writer prints with a `-`.
- `tools/05_overall_summary.py:94` falls back to the mean cents when the median is NaN. Once there are cents the median is a number, so the model has no such branch.
- Subtitles.Entries: the entries `WriteSrt` builds from it hold the carried SRT time lines. The program prints `Subtitles.WriteSrtAsWritten`, built from the same entries with `Subtitles.SrtTimeLinesAsWritten`; they agree when no time rounds up (`Subtitles.WriteSrtAgrees`).
- Subtitles.SrtTimeLines: the time lines with the carried timestamp. `Subtitles.SrtTimeLinesAsWritten` is the as-written one and equals it line by line for rows with `Subtitles.SrtExact`.
- Subtitles.LrcLines: the lines with the carried tag. `Subtitles.LrcLinesAsWritten` is the as-written one and equals it line by line for rows with `Subtitles.LrcExact`.
- Subtitles.MakeSubtitles: writes the as-written texts. What it writes reads back as its rows only when no time rounds up (`SubtitleReadBack.MakeSubtitlesSrtReadBack`, `SubtitleReadBack.MakeSubtitlesLrcReadBack`).
- SubtitleReadBack.MsReadBack: stated for `Subtitles.WriteSrt`, whose time lines carry a rounded-up 1000 ms into the seconds. The program prints `Subtitles.WriteSrtAsWritten` (see Findings); the two agree when no time rounds up to a whole second at milliseconds (`Subtitles.WriteSrtAgrees`, used by `SubtitleReadBack.MakeSubtitlesSrtReadBack`).
- SubtitleReadBack.SrtReadRow: stated for `Subtitles.WriteSrt`, whose time lines carry a rounded-up 1000 ms into the seconds. The program prints `Subtitles.WriteSrtAsWritten` (see Findings); the two agree when no time rounds up to a whole second at milliseconds (`Subtitles.WriteSrtAgrees`, used by `SubtitleReadBack.MakeSubtitlesSrtReadBack`).
- SubtitleReadBack.RowEntry: stated for `Subtitles.WriteSrt`, whose time lines carry a rounded-up 1000 ms into the seconds. The program prints `Subtitles.WriteSrtAsWritten` (see Findings); the two agree when no time rounds up to a whole second at milliseconds (`Subtitles.WriteSrtAgrees`, used by `SubtitleReadBack.MakeSubtitlesSrtReadBack`).
- SubtitleReadBack.WriteSrtReadBack: stated for `Subtitles.WriteSrt`, whose time lines carry a rounded-up 1000 ms into the seconds. The program prints `Subtitles.WriteSrtAsWritten` (see Findings); the two agree when no time rounds up to a whole second at milliseconds (`Subtitles.WriteSrtAgrees`, used by `SubtitleReadBack.MakeSubtitlesSrtReadBack`).
- SubtitleReadBack.SrtReadRowsAll: stated for `Subtitles.WriteSrt`, whose time lines carry a rounded-up 1000 ms into the seconds. The program prints `Subtitles.WriteSrtAsWritten` (see Findings); the two agree when no time rounds up to a whole second at milliseconds (`Subtitles.WriteSrtAgrees`, used by `SubtitleReadBack.MakeSubtitlesSrtReadBack`).
- SubtitleReadBack.SrtReadRowsMembers: stated for `Subtitles.WriteSrt`, whose time lines carry a rounded-up 1000 ms into the seconds. The program prints `Subtitles.WriteSrtAsWritten` (see Findings); the two agree when no time rounds up to a whole second at milliseconds (`Subtitles.WriteSrtAgrees`, used by `SubtitleReadBack.MakeSubtitlesSrtReadBack`).
- SubtitleReadBack.CsReadBack: stated for `Subtitles.WriteLrc`, whose tags carry a rounded-up 100 hundredths into the seconds. The program prints `Subtitles.WriteLrcAsWritten` (see Findings); the two agree when no start rounds up to a whole second at hundredths (`Subtitles.WriteLrcAgrees`, used by `SubtitleReadBack.MakeSubtitlesLrcReadBack`).
- SubtitleReadBack.LrcReadCue: stated for `Subtitles.WriteLrc`, whose tags carry a rounded-up 100 hundredths into the seconds. The program prints `Subtitles.WriteLrcAsWritten` (see Findings); the two agree when no start rounds up to a whole second at hundredths (`Subtitles.WriteLrcAgrees`, used by `SubtitleReadBack.MakeSubtitlesLrcReadBack`).
- SubtitleReadBack.LrcLineReads: stated for `Subtitles.WriteLrc`, whose tags carry a rounded-up 100 hundredths into the seconds. The program prints `Subtitles.WriteLrcAsWritten` (see Findings); the two agree when no start rounds up to a whole second at hundredths (`Subtitles.WriteLrcAgrees`, used by `SubtitleReadBack.MakeSubtitlesLrcReadBack`).
- SubtitleReadBack.LrcCuesBack: stated for `Subtitles.WriteLrc`, whose tags carry a rounded-up 100 hundredths into the seconds. The program prints `Subtitles.WriteLrcAsWritten` (see Findings); the two agree when no start rounds up to a whole second at hundredths (`Subtitles.WriteLrcAgrees`, used by `SubtitleReadBack.MakeSubtitlesLrcReadBack`).
- SubtitleReadBack.WriteLrcReadBack: stated for `Subtitles.WriteLrc`, whose tags carry a rounded-up 100 hundredths into the seconds. The program prints `Subtitles.WriteLrcAsWritten` (see Findings); the two agree when no start rounds up to a whole second at hundredths (`Subtitles.WriteLrcAgrees`, used by `SubtitleReadBack.MakeSubtitlesLrcReadBack`).
- SubtitleReadBack.LrcReadCuesAll: stated for `Subtitles.WriteLrc`, whose tags carry a rounded-up 100 hundredths into the seconds. The program prints `Subtitles.WriteLrcAsWritten` (see Findings); the two agree when no start rounds up to a whole second at hundredths (`Subtitles.WriteLrcAgrees`, used by `SubtitleReadBack.MakeSubtitlesLrcReadBack`).
- CommentCards.CardOf: uses `CommentCommon.TimeText`, which carries a rounded-up minute of seconds into the minutes. The program prints `CommentCommon.TimeTextAsWritten` (see Findings); the two agree when the seconds do not round up to 60.00 (`CommentCommon.TimeTextAgrees`).
- CommentCards.CardsOf: uses `CommentCommon.TimeText`, which carries a rounded-up minute of seconds into the minutes. The program prints `CommentCommon.TimeTextAsWritten` (see Findings); the two agree when the seconds do not round up to 60.00 (`CommentCommon.TimeTextAgrees`).
- CommentCards.Cards: uses `CommentCommon.TimeText`, which carries a rounded-up minute of seconds into the minutes. The program prints `CommentCommon.TimeTextAsWritten` (see Findings); the two agree when the seconds do not round up to 60.00 (`CommentCommon.TimeTextAgrees`).
- CommentCards.CardsLines: uses `CommentCommon.TimeText`, which carries a rounded-up minute of seconds into the minutes. The program prints `CommentCommon.TimeTextAsWritten` (see Findings); the two agree when the seconds do not round up to 60.00 (`CommentCommon.TimeTextAgrees`).
- RenderComments.Comment: uses `CommentCommon.TimeText`, which carries a rounded-up minute of seconds into the minutes. The program prints `CommentCommon.TimeTextAsWritten` (see Findings); the two agree when the seconds do not round up to 60.00 (`CommentCommon.TimeTextAgrees`).
- RenderComments.RenderLines: uses `CommentCommon.TimeText`, which carries a rounded-up minute of seconds into the minutes. The program prints `CommentCommon.TimeTextAsWritten` (see Findings); the two agree when the seconds do not round up to 60.00 (`CommentCommon.TimeTextAgrees`).
- RenderComments.Comment: a JSON `null` type is not told apart from a missing one. `None` stands for a missing `type` key, which raises `KeyError`; a `null` type reaches the fallback advice at `tools/03_render_comments_txt.py:37`, which is not modelled.
- RenderComments.RenderNeedsAll: stated with a missing key only. A `null` type would not stop the rendering (`tools/03_render_comments_txt.py:37`); the model has no such value.
- OverallSummary.AddEvent: a JSON `null` end is not told apart from a missing one. `None` stands for a missing `end` key, which falls back to the start; `float(None)` at `tools/05_overall_summary.py:35` raises `TypeError` on a `null` end, which is not modelled. A `null` start would raise the same way.
- OverallSummary.RawDuration: a JSON `null` end is not told apart from a missing one. `None` stands for a missing `end` key, which falls back to the start; `float(None)` at `tools/05_overall_summary.py:35` raises `TypeError` on a `null` end, which is not modelled. A `null` start would raise the same way.
- OverallSummary.DurFromEvents: a JSON `null` end is not told apart from a missing one. `None` stands for a missing `end` key, which falls back to the start; `float(None)` at `tools/05_overall_summary.py:35` raises `TypeError` on a `null` end, which is not modelled. A `null` start would raise the same way.
- CommentCommon.EndOr: a JSON `null` end is not told apart from a missing one. `None` stands for a missing `end` key; a `null` end makes `float(None)` at `tools/07_event_comment_cards.py:19` and `mmss(None)` at `tools/03_render_comments_txt.py:21` raise `TypeError`, which is not modelled.
- CommentCards.CardOf: a JSON `null` type is not told apart from a missing one. A `null` type gets the `else` advice of `tools/07_event_comment_cards.py:33-34`, as the model's `"other"` does, but the card of line 47 would carry the `null` rather than `"other"`.
- The Swift in-app comparison, the Flask servers, f0 extraction, plotting and the export and scaffolding scripts are not part of this model.

## Findings

| source | as written | input that shows it | evidently intended | confidence | as-written member | corrected member |
|---|---|---|---|---|---|---|
| tools/12_make_subtitles.py:8-15 | milliseconds that round up to 1000 are not carried into the seconds | 5.9996 s is written `00:00:05,1000`, which reads back as 5.1 s | `00:00:06,000` | not executed | LyricsTime.SrtCarryCounterexample | LyricsTime.SrtTimestampRoundTrip |
| tools/12_make_subtitles.py:17-23 | hundredths that round up to 100 are not carried into the seconds | 5.996 s is tagged `[00:05.100]`, which reads back as 5.1 s | `[00:06.00]` | not executed | LyricsTime.LrcCarryCounterexample | LyricsTime.LrcTagRoundTrip |
| tools/10_import_lyrics.py:77-78 | `if times and text` is true for `(None, None)`, so `round(None, 3)` raises | the two-line file `-->`, `la`: the arrow line splits into two empty times | skip the block, as `tools/14_import_lyrics_v2.py:59` does | not executed | LyricsImport.ReadSrtV1Counterexample | LyricsImport.ReadSrtFails |
| tools/07_event_comment_cards.py:12-15 | seconds that round up to 60.00 are not carried into the minutes | 59.999 s is printed `00:60.00` | `01:00.00` | not executed | CommentCommon.MinuteCarryCounterexample | CommentCommon.TimeTextRoundTrip |
| tools/03_render_comments_txt.py:13-16 | the same `mmss` as `H` of `tools/07` | 59.999 s is printed `00:60.00` | `01:00.00` | not executed | CommentCommon.MinuteCarryCounterexample | CommentCommon.TimeTextRoundTrip |
