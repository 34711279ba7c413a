# Emotion detection demo: the generator and the history panel, in Dafny

The demo shows a webcam feed next to a simulated "emotion detection" readout
and a chart of past readings. There is no inference. Two small pure
computations live inside the React components, and this project models and
proves them:

- **The distribution generator** `mockEmotionDetection`
  (`src/components/EmotionDetector.tsx`). It picks a dominant emotion out of
  seven and gives it 30..69 points. It walks the other emotions in order: each
  gets a clamped draw in 0..19 and is left out when that draw is 0, and the
  emotion at index 6 (`disgust`) gets whatever is left. The result is sorted by
  decreasing confidence. Each `Math.floor(Math.random() * n)` becomes the next
  integer of an injected stream `rolls` in `[0, n)`, so the generator is a
  total, deterministic function (`Detector.ValidRolls` states the stream's
  shape).
- **The history panel** (`src/components/EmotionHistory.tsx`). The `setHistory`
  updater appends the dominant reading and keeps only the newest 50 entries.
  The aggregation counts each emotion of the history, in order of first
  occurrence, and attaches a colour.

Modules:

| file | module | models |
|---|---|---|
| `emotions.dfy` | `Emotions` | the `Emotion` union, the `emotions` array order, label strings, `EmotionData` |
| `ranking.dfy` | `Ranking` | `sort((a, b) => b.confidence - a.confidence)`, a stable descending sort |
| `detector.dfy` | `Detector` | `mockEmotionDetection`, its loop as the state after `i` iterations |
| `history.dfy` | `History` | the append-and-cap updater, the recording effect, a replay of many ticks |
| `frequency.dfy` | `Frequency` | `emotionCounts`, `Object.keys(...).map(...)`, the colour table |

Each property is paired with an independent reference:
- The loop is paired with its invariant `Detector.Inv`.
- The sort is characterised by order, permutation and stability.
- The cap is checked against `History.Newest`, the newest `min(n, 50)` entries.
- The tally is checked against `Frequency.Expected`, built from the distinct
  emotions in first-occurrence order with their multiset counts.

The model follows the code, including where it departs from the source's own
comments:
- The comment at `src/components/EmotionDetector.tsx:31` says "Between 30-70%".
  The code computes `Math.floor(r * 40) + 30`, so the dominant's confidence
  lies in 30..69 and never reaches 70.
- The comment at `src/components/EmotionDetector.tsx:25` promises "confidences
  that sum to 100%". They do not always: when `disgust` is the dominant, the
  leftover is never handed out (see Findings).
- The first element after sorting is not always the drawn dominant. The
  leftover given to `disgust` can reach 70. Sorting is stable, so on a tie the
  reading pushed first comes first, and the dominant is always pushed first.
- Nothing resets the history when the panel turns inactive. The effect simply
  stops appending.

## Model

| member | source | states |
|---|---|---|
| Emotions.IndexOf | src/components/EmotionDetector.tsx:23 | every emotion has a position in the `emotions` array, and that position holds it |
| Emotions.NameInjective | src/components/EmotionDetector.tsx:8 | distinct emotions have distinct label strings, so keying by label is keying by emotion |
| Ranking.Insert | src/components/EmotionDetector.tsx:62 | inserting one reading into a descending sequence keeps it descending, adds exactly that reading to the multiset and its confidence to the total |
| Ranking.SortDesc | src/components/EmotionDetector.tsx:62 | the sorted result is non-increasing by confidence, is a permutation of the input, and keeps its length and its total |
| Ranking.SortIsStable | src/components/EmotionDetector.tsx:62 | for every confidence value, the readings with that value keep their input order (the stable `Array.prototype.sort`) |
| Ranking.SortKeepsDistinct | src/components/EmotionDetector.tsx:62 | sorting never makes two readings share an emotion |
| Detector.DominantConfidence | src/components/EmotionDetector.tsx:31 | the dominant's confidence lies in 30..69 and is never 70 |
| Detector.LastSlot | src/components/EmotionDetector.tsx:43 | the index that receives the leftover is 6 as written, or the last index other than the dominant under the corrected rule; every later index is the dominant |
| Detector.Start | src/components/EmotionDetector.tsx:26-38 | before the loop exactly one reading, the dominant, has been pushed; pushed total plus `remainingConfidence` is 100; `remainingConfidence` lies in 31..70 |
| Detector.Step | src/components/EmotionDetector.tsx:41-60 | one iteration only appends, at most one reading and only for index `i`; the dominant's index changes nothing; any other index but the last reads the next draw, and `Math.min(remainingConfidence, draw)` is pushed exactly when positive and then subtracted, so the sum is kept and the budget never goes below 0; the last index reads no draw and is pushed with the whole of `remainingConfidence`, which is not decreased |
| Detector.StateAfter | src/components/EmotionDetector.tsx:41-60 | after `i` iterations the loop has read exactly one share draw per visited index that is neither the dominant nor the last index |
| Detector.Invariant | src/components/EmotionDetector.tsx:27-60 | after every iteration: dominant pushed first; remaining in 0..100-dominant; pushed total plus remaining is 100 until the last index takes the leftover, then the pushed total is 100; later readings are for visited non-dominant indices in increasing order, with their confidence bounds |
| Detector.RemainingStaysInRange | src/components/EmotionDetector.tsx:38-56 | `remainingConfidence` stays between 0 and 100 minus the dominant's confidence at every point of the loop |
| Detector.Pushed | src/components/EmotionDetector.tsx:33-36 | the loop pushes 1..7 readings, and the first is the dominant with its drawn confidence |
| Detector.Detect | src/components/EmotionDetector.tsx:62 | the output has 1..7 readings, is sorted non-increasing so element 0 holds the maximum, and is a permutation of the pushed readings |
| Detector.Leftover | src/components/EmotionDetector.tsx:27-60 | the final value of `remainingConfidence` lies in 0..70 |
| Detector.LeftoverIsDisgustShare | src/components/EmotionDetector.tsx:43-48 | when `disgust` is not the dominant, it is reported with exactly the final `remainingConfidence` |
| Detector.MockEmotionDetection | src/components/EmotionDetector.tsx:20-63 | as written, the confidences sum to exactly 100 when the dominant is not `disgust`, and to 100 minus the unassigned `remainingConfidence` when it is; never above 100 |
| Detector.CorrectedEmotionDetection | src/components/EmotionDetector.tsx:43-48 | if the leftover goes to the last non-dominant emotion, the confidences always sum to exactly 100 |
| Detector.EachEmotionAtMostOnce | src/components/EmotionDetector.tsx:33-42 | no emotion is reported twice |
| Detector.DominantReported | src/components/EmotionDetector.tsx:30-36 | the drawn dominant is reported with its drawn confidence, and any reading of that emotion lies in 30..69 |
| Detector.PushedExtends | src/components/EmotionDetector.tsx:41-60 | the readings pushed after `j` iterations are a prefix of those after `n`, and everything pushed in between is for an index in `j..n-1` |
| Detector.PushedShare | src/components/EmotionDetector.tsx:50-56 | before sorting, an index that is neither dominant nor last has a reading exactly when its clamped draw `Math.min(remainingConfidence, draw)` is positive, and that reading carries the clamped draw |
| Detector.ShareReported | src/components/EmotionDetector.tsx:50-62 | in the output, an index that is neither dominant nor last is reported exactly when its clamped draw is positive, and with that clamped draw as its confidence |
| Detector.ShareConfidences | src/components/EmotionDetector.tsx:43-57 | every non-dominant reading is in 1..19, except the last index's, which is in 0..70; only the last index can report 0 |
| Detector.LastAlwaysReported | src/components/EmotionDetector.tsx:43-48 | when the last index is not the dominant, it is always reported, even with confidence 0 |
| Detector.TopIsDominantOrLast | src/components/EmotionDetector.tsx:77-79 | the reading shown as dominant, element 0, is the drawn dominant or the last index, never any other emotion |
| Detector.DominantNotAlwaysFirst | src/components/EmotionDetector.tsx:41-62 | with dominant `happy` at 30 and all share draws 0, the output is `[disgust 70, happy 30]`, so the drawn dominant is not first |
| Detector.DisgustDominantFallsShort | src/components/EmotionDetector.tsx:41-60 | with dominant `disgust` at 30 and all share draws 0, the output is `[disgust 30]` and sums to 30, not 100 |
| History.Append | src/components/EmotionHistory.tsx:32-45 | the new history has at most 50 entries and ends with the new entry; it is the newest 50 of `prev + [entry]`; below 50 nothing is dropped; at exactly 50 only the oldest entry is dropped |
| History.Record | src/components/EmotionHistory.tsx:30-47 | the history changes only when the panel is active and a dominant reading is present, with no reset otherwise; when it does change it ends with that reading at time `now` and stays within 50 |
| History.EntryOf | src/components/EmotionHistory.tsx:34-38 | the recorded entry carries the dominant reading's emotion and confidence unchanged, stamped with `now` |
| History.Replay | src/components/EmotionHistory.tsx:30-47 | over any run of effect ticks a history within 50 stays within 50; it never shrinks except to exactly 50 entries, and grows by at most the number of ticks that record a reading |
| History.ReplayKeepsNewest | src/components/EmotionHistory.tsx:31-44 | from a history within capacity, any run of effect ticks yields exactly the newest 50 of the old history followed by all recorded entries, in order |
| History.SixtyRecordsKeepLastFifty | src/components/EmotionHistory.tsx:34-41 | recording 60 readings on an empty history keeps the last 50 of them |
| Frequency.ColorOf | src/components/EmotionHistory.tsx:52-60 | each of the seven labels gets its table colour, and any other string gets `'#ccc'` (table treated as a plain lookup) |
| Frequency.Bump | src/components/EmotionHistory.tsx:62-65 | one count update keeps existing keys in place and raises a count by at most one; a bucket for the emotion with count 1 is added at the end exactly when it is not yet a key; keys stay distinct |
| Frequency.Tally | src/components/EmotionHistory.tsx:62-65 | the tally has no more keys than entries, no repeated key, only keys that occur in the history, and every count at least 1 |
| Frequency.Bar | src/components/EmotionHistory.tsx:67-71 | one bar carries its key's label and count and the table colour for that label, never `'#ccc'` |
| Frequency.Bars | src/components/EmotionHistory.tsx:67-71 | one bar per key, in key order |
| Frequency.Aggregate | src/components/EmotionHistory.tsx:50-74 | the chart data has no more bars than history entries, no two bars share a label, and each bar has a count of at least 1 and a colour from the table |
| Frequency.EveryEmotionHasColor | src/components/EmotionHistory.tsx:52-70 | every emotion's label is in the colour table, so the `'#ccc'` fallback is unreachable |
| Frequency.FirstOccurrencesOrdered | src/components/EmotionHistory.tsx:62-67 | the reference lists the distinct emotions in strictly increasing order of first occurrence |
| Frequency.TallyMatchesReference | src/components/EmotionHistory.tsx:62-65 | the `forEach` tally has one bucket per distinct emotion, in first-occurrence order, each holding that emotion's number of occurrences |
| Frequency.AggregateInFirstOccurrenceOrder | src/components/EmotionHistory.tsx:62-71 | the bars list the history's distinct emotions by label, in first-occurrence order, each label once |
| Frequency.AggregateCounts | src/components/EmotionHistory.tsx:62-71 | an emotion has a bar exactly when it occurs in the history, and the bar's count is its number of occurrences, at least 1 |
| Frequency.AggregateTotal | src/components/EmotionHistory.tsx:62-73 | the counts sum to the history's length, and the aggregate is empty exactly when the history is |
| Frequency.AggregateColors | src/components/EmotionHistory.tsx:67-71 | every bar carries its label's colour from the table, never the fallback |

## Findings

| source | as written | input that shows it | evidently intended | confidence | as-written member | corrected member |
|---|---|---|---|---|---|---|
| src/components/EmotionDetector.tsx:43 | `i === emotions.length - 1` hands the leftover to index 6 even when index 6 is the dominant, and the loop skips the dominant, so the leftover is never assigned | dominant index 6, offset 0, every share draw 0: output `[disgust 30]`, total 30 | the last non-dominant emotion receives the leftover, so the confidences sum to 100 | high; not executed | Detector.DisgustDominantFallsShort | Detector.CorrectedEmotionDetection |

Both rules share one loop model, `Detector.StateAfter`, parameterised by
`Detector.LastRule`. Every general lemma about the output (`Detect`,
`EachEmotionAtMostOnce`, `DominantReported`, `ShareConfidences`,
`TopIsDominantOrLast`) holds under both rules.

## Left out

- The `imageData` argument: `mockEmotionDetection` never reads it, so the model has no such parameter. Independence from it holds by construction.
- `Math.random()` floating point: each `Math.floor(Math.random() * n)` is an injected integer in `[0, n)`. `Detector.ValidRolls` asks for at least 8 draws, the most one call consumes.
- `Date.now()`: the timestamp is the parameter `now`.
- The `setInterval`/`clearInterval` timer, the `useEffect` lifecycles and their dependency lists, and the `toast` call. These are framework scheduling. `History.Replay` treats each effect run as one explicit tick.
- The colour, text-colour and emoji lookups in `EmotionDetector.tsx` and all JSX and chart rendering: cosmetic.
- `src/components/WebcamCapture.tsx` (camera and canvas I/O) and `src/pages/Index.tsx` (layout and state wiring) are not part of this model.
- Frequency.ColorOf: the table is a plain lookup, so inherited keys of a JavaScript object such as `toString` or `constructor`, which would yield a function rather than `'#ccc'`, are not modelled. The chart only ever looks up the seven labels.
- JavaScript numbers are doubles. Every value here is a small integer, so the model uses unbounded `int`.
