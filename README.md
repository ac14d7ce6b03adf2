# Vacancies analysis: aggregation and bar-chart-race data, in Dafny

This project models the two data transformations behind the vacancy charts.

- **`get_data`** (`backend/app.py`). This is the server side. It counts the key skills of all vacancies and keeps those that
  occur at least five times. It also counts the truthy `experience` values and the truthy `schedule` values. Each
  of the three lists is a `Counter`'s items, so it follows the order in which its labels first occur.
  Module `Aggregate` in `aggregate.dfy` models it with pure functions over sequences, plus lemmas.
- **`drawBarChartRace`** (`static/js/main.js`). This is the client side. Every schedule bucket is spread over 30 time steps.
  The counts grow as `round(count / 30 * (i + 1))`. The steps are flattened into `flatData`. Each frame
  shows that frame's entries, sorted by descending count and cut to seven. A counter `time` walks the
  frames 0..29. Module `Race` in `race.dfy` models the pure parts (`Transform`, `SelectFrame`) as functions.
  The nested `push` loops become the method `FlattenData`. The counter becomes the class `BarChartRace`, whose
  methods `UpdateChart` and `Run` are proved against `SelectFrame`.

`wrappers.dfy` holds the `Option` type used for JSON values that may be absent or null.

Modelling choices:
- A record's `key_skills` is a list of strings. If the list is missing, it is the empty list, as with the `.get` default.
  `experience` and `schedule` are `Option<string>`: both a missing key and JSON `null` are `None`.
  A value counts when it is truthy, meaning present and not the empty string.
- `Counter(xs)` is modelled as a left fold (`Bump`) over a list of items. This is exactly how a Python dict keeps insertion order.
- The step count `Math.round((count / 30) * (i + 1))` is modelled as exact rational arithmetic rounded half up:
  `(2 * count * (i + 1) + 30) div 60`.
- The JavaScript sort with comparator `b.count - a.count` is a stable sort by descending count. Since ES2019 the
  language standard requires `Array.prototype.sort` to be stable. It is modelled as a stable insertion sort.
- The self-rescheduling `setTimeout(updateChart, 700)` chain is modelled as a loop that calls `UpdateChart`. The loop runs
  while the call reports that another update would be scheduled.

What the code does and does not do:
- `get_data` sorts none of its three lists by count and truncates none. Each is in first-occurrence order (`backend/app.py:18-34`).
- Absent, null or empty values are dropped. No default label is substituted.
- Skills with fewer than five occurrences are dropped, as `SmallSampleExample` shows.
- The bar-chart race is fed `data.schedule` (`static/js/main.js:6`).

## Model

| member | source | states |
|---|---|---|
| `Aggregate.AllSkillsOccurrences` | backend/app.py:17 | a skill's number of occurrences in the flattened skill list is the sum, record by record, of its occurrences in each record's `key_skills`; repeats inside one record count each time |
| `Aggregate.SkillLessRecordIgnored` | backend/app.py:17 | inserting a record with no key skills anywhere in the input changes neither the flattened skill list nor the skill output |
| `Aggregate.BumpKnown` | backend/app.py:18 | counting one more `x` into a list of items with unique labels that already has an item labelled `x` adds one to that item and changes nothing else |
| `Aggregate.BumpNew` | backend/app.py:18 | counting one more `x` into a list of items without an item labelled `x` appends `(x, 1)` |
| `Aggregate.BumpTotal` | backend/app.py:18 | counting one more element raises the sum of all counts by exactly one |
| `Aggregate.TallySpec` | backend/app.py:18 | `Counter(xs).items()` has one item for each distinct element of `xs` and for no other label; each count is that element's number of occurrences; labels are unique and in order of first occurrence in `xs` |
| `Aggregate.TallyTotal` | backend/app.py:18 | the counts of `Counter(xs)` sum to `len(xs)` |
| `Aggregate.AboveThresholdMembers` | backend/app.py:22-26 | the comprehension keeps an item if and only if its count is at least the threshold |
| `Aggregate.AboveThresholdOrder` | backend/app.py:22-26 | the comprehension keeps the items' first-occurrence order |
| `Aggregate.ThresholdCounts` | backend/app.py:18-26 | every item that survives the threshold carries its number of occurrences, which is at least the threshold, and survivors stay in first-occurrence order |
| `Aggregate.ThresholdMembers` | backend/app.py:18-26 | a label survives the threshold if and only if it occurs at least that many times |
| `Aggregate.SkillsSpec` | backend/app.py:17-26 | each emitted skill's count is its number of occurrences across all records and is at least 5; a skill is emitted if and only if it occurs at least 5 times; names are unique and in first-occurrence order |
| `Aggregate.ValuesSpec` | backend/app.py:28-29 | the list given to `Counter` holds one non-empty value per record whose field is truthy, and holds each value as many times as there are records with that value |
| `Aggregate.FalsyRecordIgnored` | backend/app.py:28-29 | inserting a record whose field is absent, null or empty anywhere in the input leaves that field's list unchanged |
| `Aggregate.FieldCountsSpec` | backend/app.py:28-34 | for experience and for schedule: each bucket's name is non-empty; its count is positive and equals the number of records holding that value; every truthy value appears; the counts sum to the number of records with a truthy value; names are unique and in first-occurrence order |
| `Aggregate.SmallSampleExample` | backend/app.py:16-35 | on a two-record sample, "Go" is counted twice and "SQL" once, but neither reaches the threshold; records without experience or schedule give empty lists and no default label |
| `Race.StepCount` | static/js/main.js:117 | the step count is the integer nearest to `count * (i + 1) / 30`, with halves rounded up |
| `Race.StepCountLast` | static/js/main.js:117 | at step 29 the step count equals the bucket's count |
| `Race.StepCountMonotone` | static/js/main.js:117 | for a non-negative count, the step counts never decrease from step to step and stay between 0 and the count |
| `Race.FlattenData` | static/js/main.js:121-124 | the nested `forEach`/`push` loops produce exactly the concatenation of each series' entries, in series order and step order |
| `Race.FlatDataLayout` | static/js/main.js:112-124 | `flatData` has 30 entries per input bucket; entry `k` belongs to bucket `k / 30`, has time `k % 30` and has that bucket's step count, so entries are grouped by bucket in input order with times 0..29 ascending |
| `Race.FrameEntriesSpec` | static/js/main.js:133 | the time filter keeps only entries of the current frame, and keeps every such entry of `flatData` with its multiplicity |
| `Race.FrameEntriesAppend` | static/js/main.js:133 | filtering a concatenation gives the two filtered parts, concatenated in the same order |
| `Race.FrameEntriesSingle` | static/js/main.js:133 | on a single entry, the filter keeps it exactly when its time is the current frame; together with `FrameEntriesAppend`, the filter keeps the frame's entries in their `flatData` order |
| `Race.InsertByCountStable` | static/js/main.js:133 | inserting into a sorted list places the new entry after every earlier entry of equal count |
| `Race.SortByCountDescSpec` | static/js/main.js:133 | the sort orders by non-increasing count, is a permutation of its input, and keeps input order among entries of equal count |
| `Race.SelectFrameMembers` | static/js/main.js:133 | a frame's bars are entries of `flatData` for that frame; there are `min(7, n)` of them, where `n` is the number of the frame's entries |
| `Race.SelectFrameTop` | static/js/main.js:133 | a frame's bars are sorted by non-increasing count, and no left-out entry of the frame has a larger count than any bar shown |
| `Race.SelectFrameStable` | static/js/main.js:133 | among entries of equal count, the bars shown are the first ones in `flatData` order |
| `Race.FrameOfLayout` | static/js/main.js:112-133 | for every time step `t < 30`, the frame's entries are exactly one per input bucket, in input order, each with the bucket's count at step `t` |
| `Race.LastFrameShowsCounts` | static/js/main.js:117-133 | the last frame holds every bucket with its full count |
| `Race.BarChartRace.constructor` | static/js/main.js:112-130 | the prepared `flatData` is the flattening of the transformed buckets; `time` starts at 0 and nothing has been drawn |
| `Race.BarChartRace.UpdateChart` | static/js/main.js:132-177 | one update draws the selection for the current `time`, then adds one to `time`; it reports that another update is scheduled if and only if `time < 30` |
| `Race.BarChartRace.Run` | static/js/main.js:174-180 | starting from time 0, the updates stop when `time` reaches 30; by then the frame selection has run exactly once for each frame 0..29, in order |
| `Race.DrawBarChartRace` | static/js/main.js:106-181 | the race for a list of buckets draws exactly 30 frames, and frame `t` is the top-7 selection of `flatData` for time `t` |

## Left out

- All D3 rendering is left out. This covers the bubble chart's pack layout, its force simulation and drag handlers (`static/js/main.js:9-75`), the pie chart (77-104), and the race's scales, transitions and enter/exit joins (126-128, 135-172). These are calls into an external library with no logic of the repository's own. In the model, a drawn frame is recorded as its selection; where the bars are placed is not modelled.
- `fetch("/data")` and the JSON decoding (`static/js/main.js:1-7`) are network I/O, so they are left out. The race takes its bucket list as a parameter.
- The 700 ms `setTimeout` delay is timing, so it is left out. The rescheduling is modelled as a loop.
- The Flask application (`backend/app.py:1-13, 31, 38-39`) is left out: routes, templates, `jsonify`, `app.run`, and the file read at import time. `get_data` takes the record list as a parameter.
- `scrape/parsing.py` is left out. It is HTTP requests, sleeps and file output. Its field projection only fixes the record shape used here.
- `StepCount`: computes `Math.round` of the exact rational `count / 30 * (i + 1)`. It does not model IEEE-754 double rounding, which can differ when the product lands next to a half.
- Inputs whose `key_skills` is not a list are not modelled. The scraper always writes a list (`scrape/parsing.py:32`), so a record's skills here are always a list of strings. In `for skill in v.get("key_skills", [])` (`backend/app.py:17`), such inputs would behave as follows:
  - A JSON string would be iterated one character at a time.
  - A JSON object would be iterated key by key.
  - Only `null`, a number or a boolean would raise `TypeError`.
- Labels are plain character sequences here. Non-string JSON values as labels are not modelled: in Python, an object or array label is unhashable and makes `Counter` raise `TypeError`, and numbers hash, so `1`, `1.0` and `true` would merge into one bucket.
- Aggregation being idempotent is not stated as a lemma. It holds by construction, because every operation is a function.
