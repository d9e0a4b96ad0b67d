# Weather dashboard station store, modelled in Dafny

The program is an MQTT weather dashboard (`mqtt-weather-project/weather_client.py`).
Weather stations publish JSON readings: a station id, a temperature, a humidity
and an optional ISO-8601 timestamp. For every message, the client:

- validates the reading;
- coerces both fields to floats;
- records the reading in a per-station state dictionary. That dictionary holds:
  - the last values and the validation verdict;
  - a receive-ordered deque of at most 2000 samples;
  - a daily min/max rollup that resets when the local date changes;
  - hourly count/sum/min/max buckets.

`render` builds a table of the stations in sorted id order. Each row shows:

- a liveness status (OFFLINE, STALE, INVALID or OK);
- five-minute trailing averages, taken by a newest-first scan of the deque.

`main` calls `render` once, at start-up (`weather_client.py:313`), and hands the
resulting table to Rich's `Live`. `Live` redraws that same table four times a
second, and the loop after it only sleeps, so the program as written keeps
showing the start-up snapshot, which is normally empty. Statuses and averages
are never recomputed. The model's `Snapshot` is what one call of `render` computes.

The model has eight modules, one file each:

- `Wrappers`: `Option`.
- `Samples`: buffered samples, their present values, sums and means.
- `RecentBuffer`: the bounded deque and the trailing-window scan.
  - Push properties: eviction keeps exactly the newest 2000.
  - Window lemmas: the scan's early exit loses nothing when receive times are in order.
- `Rollups`: the daily and hourly rollups.
  - One-step contracts.
  - Whole-history lemmas: every bucket aggregates exactly its hour's readings, and the daily extrema are exactly those of the current day's run.
- `Validation`: `validate`, with its messages and their order.
- `Liveness`: `_status_for`.
- `StationOrder`: Python string order, and the sort the render pass iterates in.
- `Store`: the `App` class.
  - Its `stations` map is updated by `OnMessage`.
  - It is read by `Snapshot`, which stands for the data part of `render`.

Modelling choices:

- **Raw fields.** A raw JSON field is a `RawField`, which has two parts:
  - its printed text (`str(raw)`);
  - the outcome of `float(raw)`, absent when that raises.

  `_to_float(raw)` is exactly that second part. Validation and the buffer therefore see the same coercion.
- **Time.** Instants are whole UTC seconds.
- **Injected functions.** These are constructor parameters of `App`:
  - the local-day and local-hour key functions;
  - ISO parsing;
  - the f-string rendering of a float.
- **Render time.** The render time `now` is a parameter.
- **Station state.** Each station's state dictionary is a `Station` value in the `stations` map. The locked block of `on_message` computes the new state and stores it back under the station's id.

## Model

| member | source | states |
|---|---|---|
| Validation.TemperatureRejected | mqtt-weather-project/weather_client.py:31 | the temperature test rejects a value iff it lies outside [-50, 60]; the -999 sentinel lies below that range, so its test never decides |
| Validation.TemperatureProblems | mqtt-weather-project/weather_client.py:29-34 | at most one message. A non-number gives "temperature not a number: " plus the raw text, verbatim. A number gives no message iff it lies in [-50, 60], otherwise "invalid temperature " plus the rendered value |
| Validation.HumidityProblems | mqtt-weather-project/weather_client.py:36-41 | the same for humidity, with the closed range [0, 100] |
| Validation.Validate | mqtt-weather-project/weather_client.py:25-43 | ok iff the problem list is empty, iff both fields are numbers in range; the problems are the temperature's followed by the humidity's, at most two |
| Validation.TemperatureProblemsFirst | mqtt-weather-project/weather_client.py:27-43 | whatever the raw text or the rendered value, a returned message reads as a temperature message exactly when it sits before the humidity ones |
| Validation.AcceptsReasonableReading | mqtt-weather-project/test_weather_client.py:6-9 | `validate("20.5", "50")` is ok with no problems |
| Validation.FlagsOutOfRangeReading | mqtt-weather-project/test_weather_client.py:12-17 | `validate("-999", "150")` is not ok; it has an "invalid temperature" message and then an "invalid humidity" message |
| Validation.FlagsNonNumericReading | mqtt-weather-project/test_weather_client.py:20-25 | `validate("abc", "xyz")` is not ok; it has both "not a number" messages, each carrying the raw text |
| Liveness.StatusFor | mqtt-weather-project/weather_client.py:260-268 | all four statuses, each with an iff: OFFLINE iff never received; STALE iff the silence is strictly longer than the threshold, whatever the validity; INVALID iff not stale and the last reading failed; OK iff not stale and valid |
| Liveness.StaleBoundary | mqtt-weather-project/weather_client.py:264 | exactly 30 seconds of silence is not stale, and 31 seconds is |
| Samples.Mean | mqtt-weather-project/weather_client.py:199-200 | an average is absent ("n/a") iff there are no values |
| Samples.MeanBetween | mqtt-weather-project/weather_client.py:199-200 | an average lies within any interval that holds every averaged value |
| RecentBuffer.Push | mqtt-weather-project/weather_client.py:246 | appending to a deque bounded by `cap`: the length stays at most `cap`; below capacity the sample is appended; at capacity the oldest entry is dropped and the sample becomes the newest |
| RecentBuffer.PushIsNewest | mqtt-weather-project/weather_client.py:119 | one append keeps exactly the newest `cap` entries of the old contents followed by the sample |
| RecentBuffer.PushAllKeepsNewest | mqtt-weather-project/weather_client.py:119 | after any sequence of appends the deque holds exactly the newest 2000 of everything received, oldest first (FIFO eviction) |
| RecentBuffer.PushKeepsNondecreasing | mqtt-weather-project/weather_client.py:246 | appending a sample received no earlier than the newest entry keeps receive times in order |
| RecentBuffer.WindowShape | mqtt-weather-project/weather_client.py:191-193 | the entries the newest-first scan visits are a suffix of the buffer, all at or after the cutoff, and preceded only by an entry before it |
| RecentBuffer.WindowFrom | mqtt-weather-project/weather_client.py:191-193 | the index where the scan breaks is where the window starts |
| RecentBuffer.WindowIsSince | mqtt-weather-project/weather_client.py:188-193 | when receive times are in order, the scan's early exit sees exactly the entries received at or after the cutoff |
| RecentBuffer.WindowTotals | mqtt-weather-project/weather_client.py:191-200 | the running sum and count are the sum and the number of the present values in the window |
| RecentBuffer.WindowMeanIsMean | mqtt-weather-project/weather_client.py:189-200 | the trailing average is the mean of the window's present values |
| RecentBuffer.RecentAverage | mqtt-weather-project/weather_client.py:188-200 | when receive times are in order, the trailing average is the mean of all values received within the window, and absent iff there are none |
| Rollups.Extent.Include | mqtt-weather-project/weather_client.py:153-154 | an absent value changes nothing; a present one makes the new min/max the least/greatest of the old ends and the value; min <= max is preserved |
| Rollups.Daily.Record | mqtt-weather-project/weather_client.py:138-158 | the date becomes today. The same day widens the kept extrema by the present values. A new day restarts them from nothing. Ordered extrema stay ordered |
| Rollups.HourBucket.Add | mqtt-weather-project/weather_client.py:169-179 | the count grows by one whatever the reading holds; each sum grows by the value only when it is present; each extent widens by the present value; min <= max is preserved |
| Rollups.RecordHourly | mqtt-weather-project/weather_client.py:160-179 | the reading's hour key gains a bucket counted once more. A key not yet present starts from the empty bucket of `_default_hour_bucket` (lines 73-82). Every other bucket is unchanged; ordered buckets stay ordered |
| Rollups.RecordCovers | mqtt-weather-project/weather_client.py:141-158 | one update widens the kept extent, or a cleared one on a date change, by exactly the reading's value |
| Rollups.DailyAfterCoversDay | mqtt-weather-project/weather_client.py:131-158 | after any history, the daily rollup's date is the newest reading's day. Its extrema are exactly those of the run of readings since the date last changed; the starting rollup's extrema count only when the whole history fell on its date |
| Rollups.HourlyAfterAggregates | mqtt-weather-project/weather_client.py:160-179 | after any history, the bucket of an hour exists iff a reading arrived in it. Its count is the number of those readings. Its sums and extrema are over their present values |
| StationOrder.BelowIrreflexive | mqtt-weather-project/weather_client.py:288 | no id sorts before itself |
| StationOrder.BelowTransitive | mqtt-weather-project/weather_client.py:288 | string order is transitive |
| StationOrder.BelowTotal | mqtt-weather-project/weather_client.py:288 | any two distinct ids are ordered one way or the other |
| StationOrder.Least | mqtt-weather-project/weather_client.py:288 | returns an id of the set that sorts before every other one |
| StationOrder.SortedIds | mqtt-weather-project/weather_client.py:288 | `sorted` over the station ids: every id exactly once, in strictly increasing order |
| Store.App.constructor | mqtt-weather-project/weather_client.py:97-98 | the store starts with no stations |
| Store.App.EnsureStation | mqtt-weather-project/weather_client.py:109-129 | a known id's state is returned unchanged; an unknown id is stored with the empty state and that is returned; nothing else changes |
| Store.App.UpdateDaily | mqtt-weather-project/weather_client.py:131-158 | the station's daily rollup is replaced by its `Daily.Record` for the reading's local day; nothing else in the station changes |
| Store.App.UpdateHourly | mqtt-weather-project/weather_client.py:160-179 | the station's hourly buckets are replaced by `RecordHourly` for the reading's local hour; nothing else in the station changes |
| Store.App.ReceiveKeepsValid | mqtt-weather-project/weather_client.py:236-248 | a stored message keeps the station well formed: buffer within 2000, extrema ordered, every bucket counted a reading |
| Store.App.StatusAfterReceive | mqtt-weather-project/weather_client.py:229-268 | after a message the station has no errors iff the reading was acceptable; for the next 30 seconds it shows OK if so and INVALID if not; its newest buffered sample is the coerced reading; its rollups are on the reading's day and hour |
| Store.App.Deliver | mqtt-weather-project/weather_client.py:236-248 | the locked block: only the station's own entry changes. It holds the message's last values, the verdict, the pushed sample and both rollup updates. The store stays well formed |
| Store.App.OnMessage | mqtt-weather-project/weather_client.py:215-248 | a message without a string station id changes nothing. Otherwise only that station's entry changes: it becomes the state that validating, coercing and storing the message produce. The store stays well formed |
| Store.App.AvgLastMinutes | mqtt-weather-project/weather_client.py:181-201 | each average is the trailing-window mean over the buffer, for the cutoff `now - minutes * 60`; absent when the buffer is empty or the window holds no value of that quantity |
| Store.Scan | mqtt-weather-project/weather_client.py:188-197 | the loop stops at the first entry, newest first, received before the cutoff. Every entry it passed is inside the window. Its sums and counts are those of the present values it passed |
| Store.ScanResult | mqtt-weather-project/weather_client.py:191-201 | where the scan stops, its sum divided by its count is the window's mean |
| Store.App.RowOf | mqtt-weather-project/weather_client.py:289-304 | a row holds the station's id, last values, trailing averages, payload and receive times, and `_status_for` at `now` |
| Store.App.RowsOf | mqtt-weather-project/weather_client.py:288-304 | one row per given id, in the given order |
| Store.App.Snapshot | mqtt-weather-project/weather_client.py:285-304 | exactly one row per station, in strictly increasing id order, each the station's row at `now` |

## Left out

- The MQTT transport is not modelled: connect, subscribe, the callbacks `on_connect`/`on_disconnect`, `start`, `stop`, and `main` with its single `render` call inside `Live`. Nor is the `threading.Lock`; each `App` method is atomic.
- JSON decoding and UTF-8 decoding of the payload are not modelled; the model starts from an already decoded `Message`. In the source, a payload that does not decode is dropped silently (lines 216-219). A payload that decodes to something other than an object makes `payload.get` (line 221) raise `AttributeError`, which `on_message` does not catch and lets escape to the MQTT client's callback machinery. In both cases the store is unchanged.
- `parse_iso`, `_local_day` and `_local_hour_key` are injected functions. Their calendar and time-zone arithmetic is not modelled.
- `_fmt`, the `.1f` formatting of averages, `isoformat` and the Rich table are not modelled. Rows carry the unformatted values.
- Floating point is modelled as exact reals. NaN and infinities are not modelled: `float("nan")` passes `validate` because every comparison with it is false. Rounding and summation order are not modelled either.
- The JSON `null` (or a missing field) is stored as the raw field whose text is `None` and which has no number. The source stores Python `None`, which `_fmt` shows as "n/a"; the difference is only in display.
- `outage_log` is not modelled, because nothing reads or writes it.
- Times are whole seconds; the source keeps microseconds.
- `Store.App.AvgLastMinutes`: it takes the render pass's `now`. The source reads the clock again inside `_avg_last_minutes`.
- `Store.App.OnMessage`: the receive time is a parameter. It is not assumed to be monotonic: the source uses the wall clock. `RecentBuffer.RecentAverage` therefore states its equality only for buffers whose receive times are in order.
- Hourly buckets are never evicted, in the source as in the model.
- The state dictionaries are values. The source mutates them in place through aliases held by `_ensure_station`'s caller. The model computes the new state and stores it back under the same id, so aliasing is not captured.
