# StudentProgress data pipeline, in Dafny

This project models the data-normalisation logic of the `StudentProgress` React component
(`src/components/StudentProgress.jsx`), which shows a teacher a twelve-month bar chart of one
student's percentage of correct answers on one curriculum topic. That logic has four parts:

- **Topic flattening** (`getAllTopics` / `extractTopics`, `getTopicOptions`). The lesson's topic
  forest, with sub-topics under `subSubject`, is listed depth-first in pre-order for the topic
  selector. Module `TopicFlattener`: `Flatten` is the specification, and the class
  `TopicCollector` holds a sequence standing for the closure's `allTopics` array. Its recursive
  method `ExtractTopics` appends to that sequence inside a loop, as the source's recursive
  `forEach` pushes onto the array.
- **Month translation** (the `persianMonths` table and `persianMonths[name] || name`). A fixed
  table maps each of the twelve Gregorian month names to its Solar Hijri month name. Any other
  name passes through unchanged. Module `CalendarMapper`.
- **Per-month aggregation** (the `forEach` that fills `monthlyData`). This is a left fold into a
  dictionary keyed by translated month. A record is inserted when its month is absent, and
  replaces the stored one only when its `yearMonth` is strictly greater. Module
  `ProgressAggregator`: the method `Aggregate` keeps the loop and the dictionary, and is proved
  equal to the fold `Aggregated`. The lemma `AggregatedCharacterised` describes the fold's
  result independently of the fold: the stored record of a month is the *first* record with
  that month's latest period key.
- **Series building** (`allMonths.map(...)`). Each of the twelve Solar Hijri months, in calendar
  order from Farvardin, becomes one `{month, percentage}` bar, with 0 when the month has no
  entry. Module `SeriesBuilder`. Module `ProgressPipeline` chains translation, aggregation and
  projection (`ProgressSeries`, specified by `ChartOf`).

Percentages and `yearMonth` are `int`. A missing `subSubject` is modelled as the empty
sequence; the source treats both the same way and does not recurse. A missing `lesson.topics`
is `None` of an `Option`. The option field named `label` in the source is called `caption`
here, because `label` is a reserved word in Dafny.

## Model

| member | source | states |
|---|---|---|
| TopicFlattener.FlattenAppend | src/components/StudentProgress.jsx:39-49 | flattening a concatenation of sibling lists is the concatenation of their flattenings: siblings stay in array order |
| TopicFlattener.FlattenAt | src/components/StudentProgress.jsx:39-49 | pre-order at every sibling position: the earlier siblings' entries, then the topic, then its sub-topics, then the later siblings |
| TopicFlattener.FlattenLength | src/components/StudentProgress.jsx:36-54 | the flattened list has exactly one entry per topic of the forest (its node count) |
| TopicFlattener.LeafContributesOne | src/components/StudentProgress.jsx:46-48 | a topic with no sub-topics contributes exactly its own entry |
| TopicFlattener.FlattenComplete | src/components/StudentProgress.jsx:39-49 | every topic at every depth of the forest has its `{id, name}` entry in the list |
| TopicFlattener.FlattenSound | src/components/StudentProgress.jsx:39-49 | every entry of the list is the `{id, name}` of some topic of the forest |
| TopicFlattener.TopicCollector.constructor | src/components/StudentProgress.jsx:37 | the accumulator starts empty |
| TopicFlattener.TopicCollector.ExtractTopics | src/components/StudentProgress.jsx:39-50 | the recursive push loop appends exactly the pre-order listing of its argument to the accumulator |
| TopicFlattener.GetAllTopics | src/components/StudentProgress.jsx:36-54 | the returned array is the pre-order listing, one entry per topic |
| TopicFlattener.Relabel | src/components/StudentProgress.jsx:61-64 | the option list has the same length as the entry list |
| TopicFlattener.RelabelRoundTrip | src/components/StudentProgress.jsx:61-64 | relabelling `{id, name}` as `{value, label}` can be undone: nothing is lost and the order is kept |
| TopicFlattener.GetTopicOptions | src/components/StudentProgress.jsx:57-65 | no options when the lesson has no topic list; otherwise one option per topic, reading back to the pre-order listing |
| CalendarMapper.Translate | src/components/StudentProgress.jsx:110 | a known Gregorian month becomes one of the table's Solar Hijri names; the name changes exactly when it is in the table |
| CalendarMapper.TableKeys | src/components/StudentProgress.jsx:20-33 | the table has exactly the twelve Gregorian month names as keys |
| CalendarMapper.TranslatePassthrough | src/components/StudentProgress.jsx:110 | a name that is not one of the twelve Gregorian months is returned unchanged |
| CalendarMapper.TranslateInjective | src/components/StudentProgress.jsx:20-33 | no two Gregorian months translate to the same Solar Hijri month |
| ProgressAggregator.Transform | src/components/StudentProgress.jsx:109-113 | same length and order; each record's month is translated, while percentage and `yearMonth` are kept |
| ProgressAggregator.FirstLatestUnique | src/components/StudentProgress.jsx:119-120 | at most one record is the first with its month's latest period key, so the tie-break is deterministic |
| ProgressAggregator.AggregatedCharacterised | src/components/StudentProgress.jsx:116-122 | a month has an entry if and only if some record carries it, and that entry is the first record of the month with the latest `yearMonth` |
| ProgressAggregator.AggregatedFromInput | src/components/StudentProgress.jsx:116-122 | every stored record is one of the input records, filed under its own month |
| ProgressAggregator.AggregatedLatest | src/components/StudentProgress.jsx:116-122 | every input record's month has an entry whose `yearMonth` is at least that record's |
| ProgressAggregator.AggregatedKeepsStored | src/components/StudentProgress.jsx:119-120 | a later record whose `yearMonth` is not strictly greater leaves the dictionary unchanged (ties keep the first-seen record) |
| ProgressAggregator.AggregatedStoresNewer | src/components/StudentProgress.jsx:119-120 | a later record of an absent month, or with a strictly greater `yearMonth`, becomes that month's entry, and nothing else changes |
| ProgressAggregator.AggregatedOrderIndependent | src/components/StudentProgress.jsx:116-122 | when no month has two different records with the same `yearMonth`, any reordering of the input gives the same dictionary |
| ProgressAggregator.Aggregate | src/components/StudentProgress.jsx:116-122 | the loop computes the left fold; its keys are exactly the months present, each mapped to that month's first latest record |
| SeriesBuilder.BuildSeries | src/components/StudentProgress.jsx:126-129 | one bar per axis label, in axis order, whatever the dictionary holds |
| SeriesBuilder.AllMonthsDistinct | src/components/StudentProgress.jsx:125 | the axis has twelve pairwise distinct month labels |
| SeriesBuilder.SeriesSlot | src/components/StudentProgress.jsx:128 | a bar carries its month's stored percentage when the month has an entry, and 0 otherwise |
| SeriesBuilder.SeriesOfEmpty | src/components/StudentProgress.jsx:125-129 | an empty dictionary gives twelve zero bars on the fixed axis |
| SeriesBuilder.SeriesDependsOnAxisOnly | src/components/StudentProgress.jsx:126-129 | two dictionaries that agree on the axis months give the same series |
| SeriesBuilder.SeriesIgnoresOffAxisKeys | src/components/StudentProgress.jsx:126-129 | removing every key that is not an axis label leaves the series unchanged: off-axis keys neither appear nor shift slots |
| ProgressPipeline.ProgressSeries | src/components/StudentProgress.jsx:109-129 | twelve bars on the fixed axis; a bar is 0 when no record translates to its month, and otherwise it is the percentage of that month's first latest record |
| ProgressPipeline.TranslateOntoAxis | src/components/StudentProgress.jsx:20-33 | the Gregorian month at position i of the table lands on axis slot (i + 9) mod 12, e.g. January on Dey and December on Azar |
| ProgressPipeline.TranslationsCoverAxis | src/components/StudentProgress.jsx:20-33 | the twelve translations are exactly the twelve axis labels |
| ProgressPipeline.OffAxisRecordIgnored | src/components/StudentProgress.jsx:109-129 | appending a record whose translated month is not an axis label leaves the chart unchanged |
| ProgressPipeline.UnknownNameIgnored | src/components/StudentProgress.jsx:109-129 | a record whose name is neither a Gregorian month nor an axis label never affects the chart |
| ProgressPipeline.SingleMarchRecord | src/components/StudentProgress.jsx:109-129 | a single March record at 85% gives 85 on Esfand and 0 on every other bar |
| ProgressPipeline.EqualKeysKeepFirst | src/components/StudentProgress.jsx:119-120 | with two January records of equal `yearMonth`, the first one's percentage is charted |
| ProgressPipeline.LaterKeyWinsEitherOrder | src/components/StudentProgress.jsx:116-122 | with two January records of different `yearMonth`, the later key's percentage is charted in either arrival order |

## Left out

- Network calls: `fetchStudents`, and the `fetch` and `response.json()` of `fetchProgressData` (lines 74-92, 102-105), are asynchronous I/O. The pipeline starts from the decoded record list. The `statusCode === 200` check and the error toasts are left out with them.
- React state and effects (`useState`, `useEffect`, `setChartData`, `setLoading`, `handleApply`, `handleReset`; lines 13-17, 68-72, 142-150) only schedule UI updates.
- Presentation: toasts, `Select`, the recharts `BarChart`, `CustomTooltip`, routing and all JSX (lines 152-330).
- The student-option mapping (lines 82-85) is a relabelling inside the network handler and is not modelled.
- The missing-selection guard of `fetchProgressData` (lines 95-98) is a UI precondition that only shows a toast.
- JavaScript value quirks are not modelled. `|| 0` also turns `null`, `NaN` and `undefined` into 0. `<` may compare strings with numbers. Floating-point percentages are modelled as integers.
- Object-prototype keys are not modelled. A month name such as `"constructor"` or `"toString"` finds an inherited property in the object literals `persianMonths` and `monthlyData`. The model treats every name outside the twelve as absent.
- Topics with a missing `id` or `name` are not modelled: `id` is an `int` and `name` a string. A missing `subSubject` is the same as an empty one.
- Cancellation of stale responses is not modelled, because the code does not implement it: `fetchProgressData` (lines 100-139) applies whatever response arrives, even after the selection has changed.
- Failed requests: the `catch` at lines 134-136 only logs and shows a toast, and leaves the previous chart in place. This belongs to the I/O layer and is not modelled.
