# Exercise-trainer overlay: a Dafny model

The exercise trainer plays back an uploaded workout video and draws the
analyzer's feedback over it, frame by frame. This project models the decision
logic of that overlay in `src/LLMExerciseTrainer_2.jsx`:

- **Timestamps** (`timestamps.dfy`): the time-expression regular expression
  `(\d+):(\d+)(?:-(\d+):(\d+))?`, read as JavaScript's leftmost match. Two
  functions use it. `parseTimestamp` gives the `{start, end}` window a jump
  seeks into, with -1/-1 for "no match". `isIssueActiveAtTime` decides whether
  a feedback pair is live at a playback time. The whole-video sentinels are
  the empty string, `"throughout video"` and `"N/A"`.
- **Tiers** (`tiers.dfy`, `feedback.dfy`): score colour and label
  (thresholds 9/7/5/3), confidence colour (80/60), severity colour (grey
  default) and the severity badge text (`"MEDIUM"` default).
- **Ranking** (`ranking.dfy`): the dashboard's "Top Issues". The source sorts
  a copy of the feedback pairs with its comparator (severity rank, then
  confidence descending) and keeps the first three. The model uses a stable
  insertion sort, because ECMAScript 2019 (section 22.1.3.27) requires
  `Array.prototype.sort` to be stable.
- **Truncation** (`truncation.dfy`): the loop that replaces the last four
  characters with `"..."` while the text is too wide and longer than a floor.
  The floor is 20 for the caption and 10 for dashboard items. The text
  measurement is a parameter, so every property holds for any measuring
  function.
- **Overlay** (`overlay.dfy`): `drawOverlay` as a pure render description. It
  returns a cleared frame, or the score badge, an optional caption and the
  dashboard. It can also return a frame aborted after the badge, when the
  caption is asked for a selected pair that does not exist.
- **Session** (`session.dfy`): `jumpToIssue`, the 5-second selection clear
  (an explicit expiry event) and the overlay toggle, as transitions on
  (playback position, selected issue, overlay shown).

Strings are `seq<char>`, one element per Unicode scalar value. Playback times, scores, confidences and text widths are `real`. The
digits of a time expression become `nat`. Render functions are pure, so
calling one twice on the same inputs gives the same description.

## Model

| member | source | states |
|---|---|---|
| Timestamps.RunEnd | src/LLMExerciseTrainer_2.jsx:549 | a greedy `\d+` stops at the first non-digit, and everything it passed over is a digit |
| Timestamps.ParseDigits | src/LLMExerciseTrainer_2.jsx:552-553 | `parseInt` of a digit run is below 10 to the power of its length, and a single digit is its own value |
| Timestamps.ParseDigitsAppend | src/LLMExerciseTrainer_2.jsx:552-553 | `parseInt` is positional: the value of a + b is the value of a times 10^|b| plus the value of b |
| Timestamps.LeadingZeroIgnored | src/LLMExerciseTrainer_2.jsx:552-553 | a leading zero does not change the value read |
| Timestamps.ClockAt | src/LLMExerciseTrainer_2.jsx:549-553 | a successful `(\d+):(\d+)` attempt captures, as minutes and seconds, `parseInt` of the digits before a colon and of the maximal digit run after it, and consumes at least three characters |
| Timestamps.MatchAt | src/LLMExerciseTrainer_2.jsx:549 | an attempt succeeds iff its first clock does; it captures a range exactly when `-` and a second clock follow, and then groups 3-4 are that second clock |
| Timestamps.FindMatch | src/LLMExerciseTrainer_2.jsx:549-550 | there is no match iff no position matches; otherwise the match is the one at a position with no matching position before it |
| Timestamps.RunEndIsMaximalRun | src/LLMExerciseTrainer_2.jsx:549 | any run of digits that ends at a non-digit is exactly the span the greedy scan finds |
| Timestamps.ClockAtIffShape | src/LLMExerciseTrainer_2.jsx:549 | the scanner accepts `(\d+):(\d+)` at a position iff the text there is some digits, a colon and a digit, so greedy matching never needs to backtrack |
| Timestamps.LeftmostFrom | src/LLMExerciseTrainer_2.jsx:549-550 | the position found is a match and no earlier position matches (the unanchored regex's leftmost match) |
| Timestamps.FirstMatchStartsDigitRun | src/LLMExerciseTrainer_2.jsx:549 | the leftmost match begins a maximal run of digits: the character before it is not a digit |
| Timestamps.ParseTimestamp | src/LLMExerciseTrainer_2.jsx:544-564 | sentinels give [0, duration]; start is negative exactly when a non-sentinel has no match, and then the window is -1/-1; on a match, start is 60·minutes + seconds of the first time, and end is the second time of a range or start + 2 for a single time |
| Timestamps.IsIssueActiveAtTime | src/LLMExerciseTrainer_2.jsx:405-411 | fails open: a sentinel or a non-matching expression is active at every time |
| Timestamps.RangeActiveIffWithinParsed | src/LLMExerciseTrainer_2.jsx:417-421 | a range is active iff the time lies in the closed window parseTimestamp returns for it |
| Timestamps.PointActiveIffNearParsedStart | src/LLMExerciseTrainer_2.jsx:422-424 | a single time is active iff strictly within 3 s of the parsed start, while parseTimestamp gives it the window [start, start + 2] |
| Timestamps.ParsedWindowIsActive | src/LLMExerciseTrainer_2.jsx:405-425 | for every expression, every time inside the parsed window is an active time |
| Timestamps.ParseFailureIsAlwaysActive | src/LLMExerciseTrainer_2.jsx:550 | where parseTimestamp returns start -1, the activation test holds at every time |
| Timestamps.InvertedRangeNeverActive | src/LLMExerciseTrainer_2.jsx:417-421 | a range whose parsed start exceeds its end is still a successful parse (start is not -1) and is active at no time |
| Timestamps.PointToleranceExample | src/LLMExerciseTrainer_2.jsx:422-424 | "01:05" parses to [65, 67] and is inactive at 62 and 68, active at 63 and 67 |
| Timestamps.BackwardsRangeExample | src/LLMExerciseTrainer_2.jsx:556-560 | "12:00-01:00" parses to [720, 60] and is active at no time |
| Timestamps.LeftmostWinsExample | src/LLMExerciseTrainer_2.jsx:549-554 | in "x 7:5 0:10-0:20" the first time, a point, wins over the later range |
| Feedback.SeverityColor | src/LLMExerciseTrainer_2.jsx:637-645 | the colour is the grey default exactly when the severity is missing |
| Feedback.SeverityColorInjective | src/LLMExerciseTrainer_2.jsx:638-644 | distinct severities have distinct colours |
| Feedback.UpperAscii | src/LLMExerciseTrainer_2.jsx:385 | `toUpperCase` keeps the length and maps each lower-case ASCII letter to its capital, leaving other characters alone |
| Feedback.SeverityBadgeText | src/LLMExerciseTrainer_2.jsx:385 | upper-casing the severity field (or "medium" when it is empty) gives CRITICAL, HIGH, LOW, and MEDIUM for both medium and missing severities |
| Feedback.MissingSeverityLooksMedium | src/LLMExerciseTrainer_2.jsx:385 | a missing severity is labelled like medium but coloured unlike it |
| Tiers.ScoreColor | src/LLMExerciseTrainer_2.jsx:677-683 | the colour is the one of the tier counting the thresholds 3/5/7/9 the score reaches |
| Tiers.ScoreLabel | src/LLMExerciseTrainer_2.jsx:685-691 | the label is the one of the same threshold-count tier |
| Tiers.ColorAndLabelAgree | src/LLMExerciseTrainer_2.jsx:677-691 | two scores share a colour iff they share a label |
| Tiers.ScoreTierMonotone | src/LLMExerciseTrainer_2.jsx:677-691 | a higher score never falls into a lower tier |
| Tiers.ThresholdsMetMonotone | src/LLMExerciseTrainer_2.jsx:677-697 | the number of thresholds reached is monotone in the value |
| Tiers.ConfidenceColor | src/LLMExerciseTrainer_2.jsx:693-697 | the colour is the one of the tier counting the thresholds 60/80 the confidence reaches |
| Tiers.ConfidenceTierMonotone | src/LLMExerciseTrainer_2.jsx:693-697 | higher confidence never gets a lower tier |
| Ranking.Compare | src/LLMExerciseTrainer_2.jsx:341-345 | the comparator is non-negative iff the second pair may precede the first, and zero iff they tie on rank and confidence |
| Ranking.Insert | src/LLMExerciseTrainer_2.jsx:340-345 | one insertion adds exactly the new pair to the multiset |
| Ranking.InsertKeepsSorted | src/LLMExerciseTrainer_2.jsx:340-345 | inserting into a sorted sequence keeps it sorted |
| Ranking.SortPairs | src/LLMExerciseTrainer_2.jsx:340-345 | the sorted copy is a permutation of the pairs, ordered by severity rank ascending and, within a rank, confidence descending |
| Ranking.InsertTies | src/LLMExerciseTrainer_2.jsx:340-345 | an insertion places the new pair after every pair it ties with |
| Ranking.SortPairsStable | src/LLMExerciseTrainer_2.jsx:340-345 | for every key, the pairs with that key keep their original order |
| Ranking.TopIssues | src/LLMExerciseTrainer_2.jsx:339-346 | the result has min(3, n) pairs, is sorted and is a sub-multiset of the source; every kept pair may stand before every pair left out, so it is the best three by the comparator |
| Ranking.TopIssuesStable | src/LLMExerciseTrainer_2.jsx:339-346 | the tied pairs in the top three are a prefix of the tied pairs of the source, in source order |
| Truncation.Shorten | src/LLMExerciseTrainer_2.jsx:195 | one pass replaces the last four characters of a text of four or more with "...", shortening it by one; a shorter text becomes "..." |
| Truncation.Truncate | src/LLMExerciseTrainer_2.jsx:394-403 | text that fits, or is at most the floor long, comes back whole; otherwise the result fits the width or is at the floor, is at least min(n, floor) long, and is the text minus its last 3 + k characters followed by "..." |
| Truncation.TruncateLoop | src/LLMExerciseTrainer_2.jsx:193-198 | the loop computes the recursive definition; after k passes the text is the original minus its last 3 + k characters plus "...", and its length is n − k |
| Truncation.TruncateStopsAtFirstFit | src/LLMExerciseTrainer_2.jsx:398-400 | every cut shorter than the result's was still too wide and above the floor, so the loop stops at the first cut that fits |
| Truncation.FloorWinsWhenNothingFits | src/LLMExerciseTrainer_2.jsx:194 | when no text fits, the result stops exactly at the floor and is still too wide |
| Overlay.LiveFrom | src/LLMExerciseTrainer_2.jsx:123-126 | the filtered list is no longer than the source list, and each of its pairs is a pair that is active or selected |
| Overlay.ChooseCaption | src/LLMExerciseTrainer_2.jsx:128-131 | a chosen caption is one of the pairs, and the selected one when there is a selection; the undefined choice happens only for a selection past the end of the list |
| Overlay.SelectedPairIsCaption | src/LLMExerciseTrainer_2.jsx:123-131 | a selection of an existing pair is the caption at any playback time |
| Overlay.UnselectedCaptionIsFirstActive | src/LLMExerciseTrainer_2.jsx:123-131 | without a selection the caption is the first active pair in list order, or none |
| Overlay.StaleSelectionIsUndefined | src/LLMExerciseTrainer_2.jsx:128-133 | a selection past the end of the list reads an undefined pair as soon as any pair is active, and gives no caption otherwise |
| Overlay.CaptionFor | src/LLMExerciseTrainer_2.jsx:183-217 | the caption is the warning text whole when it fits the width left beside the dashboard; otherwise it is the text minus its last 3 + k characters plus "...", no shorter than min(length, 20), fitting or at the floor, and every shorter cut it passed through was too wide and above the floor, so the loop stopped at the first cut that fits; it is framed in the pair's severity colour |
| Overlay.ItemFor | src/LLMExerciseTrainer_2.jsx:354-403 | an item carries its number; the body part (width 140) and the ticked correction (width 268) are each whole when they fit, and otherwise cut by 3 + k characters plus "...", between min(length, 10) and their length, fitting or at the floor, and stopped at the first cut that fits (every shorter cut passed through was too wide and above the floor); plus the severity badge text and colour |
| Overlay.DashboardFor | src/LLMExerciseTrainer_2.jsx:231-352 | the bar has the score colour; a gap shows iff the score is below 10 and adds up to 10; there are min(3, n) items, the k-th numbered k and drawn from the k-th pair of the ranking |
| Overlay.RenderFrame | src/LLMExerciseTrainer_2.jsx:105-139 | hidden iff cleared; when shown the score badge is always drawn; the dashboard is drawn iff there are pairs; the frame aborts iff the caption's choice is undefined; a drawn frame's caption is the chosen pair's, and there is none when the list is empty or no pair is chosen |
| Overlay.RenderShowsSelectedPair | src/LLMExerciseTrainer_2.jsx:128-133 | with a valid selection the frame is drawn with that pair's caption |
| Overlay.RenderShowsFirstActivePair | src/LLMExerciseTrainer_2.jsx:123-137 | without a selection the frame is drawn, for any list including the empty one, with the first active pair's caption, or none |
| Session.JumpToIssue | src/LLMExerciseTrainer_2.jsx:530-542 | without a video, or on an unparsable expression, nothing changes; otherwise the position becomes the parsed start and the pair is always selected; the overlay flag never changes |
| Session.ExpireSelection | src/LLMExerciseTrainer_2.jsx:540 | the selection is cleared whatever it is; position and overlay flag are kept |
| Session.ToggleOverlay | src/LLMExerciseTrainer_2.jsx:1475 | the overlay flag flips and nothing else changes |
| Session.ToggleTwiceRestores | src/LLMExerciseTrainer_2.jsx:1475 | pressing the overlay button twice restores the playback state |
| Session.JumpFailsOnlyOnUnparsable | src/LLMExerciseTrainer_2.jsx:534-541 | with a video, and from a state that does not already select the pair, a jump is a no-op iff the expression is not a sentinel and has no match |
| Session.JumpThenRenderShowsPair | src/LLMExerciseTrainer_2.jsx:530-542 | after a successful jump the next frame captions the jumped-to pair |
| Session.ExpireThenRenderFallsBack | src/LLMExerciseTrainer_2.jsx:540 | after expiry the frame is drawn, for any list including the empty one, and the caption falls back to the first pair active at the current position, or none |
| Session.JumpLandsInsideActivation | src/LLMExerciseTrainer_2.jsx:536-537 | a jump lands on a time where the pair is active, unless its range is written backwards |

## Left out

- `src/VideoUpload.jsx` (upload, processing trigger and the unbounded 3-second status poll) is not part of this model. It is a chain of network calls with one terminal-status test and no state machine.
- `analyzeVideo`, `toBase64`, `generateThumbnail`, `handleFileChange` and the exercise-list effects: network and browser I/O.
- The `requestAnimationFrame` loop and its cleanup, and the `setTimeout` timers: scheduling and concurrency. The selection clear is the explicit `Session.ExpireSelection` event.
- Canvas geometry: `roundRect`, badge, bar and box coordinates, fonts' pixel sizes, bar widths, and `drawMuscleMap`. Only the decisions of what is drawn are kept.
- The numbers printed on the canvas (`${score}/10`, `Gap: -${gap}`). The model keeps the numeric values, not JavaScript's number-to-string conversion.
- Severity strings other than critical, high, medium, low or missing. The source's comparator returns NaN for them, so its sort order becomes implementation-defined. `toUpperCase` on arbitrary text is left out with them.
- `Timestamps.ParseTimestamp`: does not model the loss of precision when `parseInt` returns a value beyond 2^53; digit runs are unbounded naturals here.
- `Timestamps.IsIssueActiveAtTime`: a NaN playback time is not modelled (times are real numbers), nor is the unused `duration` argument.
- `Tiers.ScoreColor` and `Tiers.ScoreLabel`: a missing or NaN score, which the source sends to the last branch of each (`"#dc2626"` and `"Poor"`), is not modelled.
- `Truncation.Truncate`, `Overlay.CaptionFor` and `Overlay.ItemFor`: lengths count Unicode scalar values, while JavaScript's `.length` and `slice(0, -4)` count UTF-16 code units. For text with characters outside the Basic Multilingual Plane (emoji in `body_part`, `issue` or `correction`, say) the lengths and the truncation points differ, and the source can split a surrogate pair.
- The browser's own clamping of a seek to [0, duration]: `Session.JumpToIssue` records the position requested.
- JSX markup, advertisements, `AdCard` and `getSeverityBadgeStyle`: presentation only.
