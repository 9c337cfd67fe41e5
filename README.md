# Cache simulator and line histogram

This project models two small Python 2 programs.

The first is a TTL cache simulator. It replays a log of timestamped requests through a cache where:

- each key lives for a fixed number of seconds after its first insertion;
- expired keys are removed lazily, by a sweep that runs before every read.

It counts gets, hits, misses and the largest cache size seen.

The second is a histogram tool. It counts identical input lines and draws one bar of `#` per distinct line. Bars are scaled so that the most frequent line spans 80 columns.

Three modules:

- `Wrappers` holds `Option`, `Result` and `Outcome`.
- `CacheSimulator` models `src/cache_simulator.py`:
  - the entry record `CacheKeyValue`;
  - the `Cache` class, whose clock is set from outside;
  - the `CacheStatistics` class;
  - the event loop of `run`.
- `Histogram` models `histogram.py`:
  - the `Histogram` class;
  - the bar lengths `write` computes;
  - the counting loop of `main`.

## How the model is built

- **The Cache class.**
  - `Cache` keeps the source's state as fields: the clock `currentTime` and the mapping `keyvalues`.
  - Its methods update these fields in place.
  - Each method is proved against a pure function of the old state. `Sweep` is the expiration sweep; `PutEntries` is `put`.
  - Lemmas state what those functions mean.
  - The class invariant `Valid` says every entry is filed under its own key and destroyed exactly the TTL after its insertion, and that the cache is empty while the clock is unset.
- **Time** is whole seconds. The clock is `Option<int>`, where `None` means "never set".
  - `put` refuses to run while the clock is unset, so the class invariant `Valid` also requires an unset clock to come with an empty cache. The sweep then has nothing to compare against `None`.
  - Python 2 orders `None` below every number, so `max(None, n)` is `n` (see `MaxWith`).
- **The event loop.** `Run` replays a sequence of already-parsed events. It uses one `Cache` and one `CacheStatistics`, exactly as lines 213-227 of the source do.
  - `Simulate` is the functional specification of the loop, and `Step` is one iteration.
  - The loop invariant `Mirrors` ties the two objects to `Simulate` of the events processed so far.
- **The histogram.**
  - `Histogram` keeps its bin list and count map as fields.
  - `Add` is proved against the pure function `Added`.
  - `Write` computes the rows it would print: bin, bar length and count.
  - `Tally` is `main`'s loop followed by `write`. It is proved against:
    - `FirstSeen`: distinct lines in order of first occurrence;
    - `Occurrences`: how often each line occurs.
- **Python 2 arithmetic.**
  - `/` on integers is floor division (`FloorDiv`).
  - Repeating a string a negative number of times gives the empty string, so a bar length is never negative (`BarLength`).
  - `max` of an empty list raises an error; in `write` this becomes `EmptyHistogram`.
  - A largest count of zero divides by zero; this becomes `ZeroDivision`.

## Model

| member | source | states |
|---|---|---|
| `CacheSimulator.Cache.constructor` | src/cache_simulator.py:30-40 | A new cache has the given TTL, no clock yet and no entries. |
| `CacheSimulator.NewKeyValue` | src/cache_simulator.py:21-27 | A new entry alone satisfies the entry invariant (filed under its own key, updated when inserted). It is inserted at the current time, lives exactly `ttl` seconds, and holds the given value. |
| `CacheSimulator.Cache.Put` | src/cache_simulator.py:42-64 | Fails with `ClockNotSet` and changes nothing while the clock is unset. Otherwise the mapping becomes `PutEntries` of the old mapping, and the entry invariant is kept. |
| `CacheSimulator.PutSpec` | src/cache_simulator.py:62-64 | Put adds the key and leaves every other key unchanged, and always stores the new value. An existing entry keeps its insertion, update and destruct times. A new entry, built as `CacheKeyValue.__init__` does (lines 22-27), is inserted now and is destroyed `ttl` seconds later. |
| `CacheSimulator.PutWellFormed` | src/cache_simulator.py:62-63 | Put keeps the entry invariant: own key, update time equals insertion time, destruct time equals insertion time plus the TTL. |
| `CacheSimulator.Cache.ExpireOldKeys` | src/cache_simulator.py:99-108 | The key-by-key deletion loop leaves exactly `Sweep` of the old mapping, and keeps the entry invariant. |
| `CacheSimulator.SweepSpec` | src/cache_simulator.py:105-108 | The sweep only removes keys. Kept entries are unchanged, with a destruct time no earlier than the clock. Every entry whose destruct time is not strictly before the clock is kept. While the clock is unset, nothing is removed. |
| `CacheSimulator.SweepWellFormed` | src/cache_simulator.py:105-108 | The sweep keeps the entry invariant. |
| `CacheSimulator.SweepIdempotent` | src/cache_simulator.py:99-108 | A second sweep at the same clock changes nothing. |
| `CacheSimulator.Cache.IsCached` | src/cache_simulator.py:66-69 | Sweeps, then answers true exactly when the key was present and live at the clock. |
| `CacheSimulator.Cache.Get` | src/cache_simulator.py:71-97 | Sweeps, then returns the old entry for a present, live key. Otherwise it fails with `KeyNotFound`, the model of the `KeyError`. |
| `CacheSimulator.Cache.Size` | src/cache_simulator.py:111-114 | Sweeps, then returns the number of entries, which equals the number of keys that were live. |
| `CacheSimulator.ReadsRepeatable` | src/cache_simulator.py:66-69 | Two reads at the same clock with no put in between give the same membership answer and the same size. |
| `CacheSimulator.ExpiryBoundary` | src/cache_simulator.py:106 | An entry whose destruct time equals the clock survives the sweep. One second later it is removed. |
| `CacheSimulator.GetAfterPut` | src/cache_simulator.py:62-64 | After a put and a sweep at the same clock, the key is present exactly when its destruct time has not passed. If present, it holds the value just put. A re-put never moves the destruct time. |
| `CacheSimulator.MaxWith` | src/cache_simulator.py:143-145 | The running maximum is at least the new size and at least the old maximum, and equals one of them. An absent maximum counts as below every size. |
| `CacheSimulator.CacheStatistics.constructor` | src/cache_simulator.py:138-141 | Hits and gets start at zero, and there is no maximum size yet. |
| `CacheSimulator.CacheStatistics.RegisterSize` | src/cache_simulator.py:143-145 | The maximum size becomes the running maximum with the new size. |
| `CacheSimulator.CacheStatistics.RegisterHit` | src/cache_simulator.py:147-149 | Hits increase by one. |
| `CacheSimulator.CacheStatistics.RegisterGet` | src/cache_simulator.py:151-153 | Gets increase by one. |
| `CacheSimulator.StatisticsExample` | src/cache_simulator.py:120-136 | One hit, three gets and the sizes 4, 6, 5 report 3 gets, 1 hit, 2 misses and a maximum size of 6. |
| `CacheSimulator.StepCounts` | src/cache_simulator.py:222-226 | Each event adds exactly one get. It adds a hit exactly when the key is present with a destruct time no earlier than the event's timestamp. |
| `CacheSimulator.StepCachesKey` | src/cache_simulator.py:223-224 | After a miss, with a non-negative TTL, the key is cached and is destroyed TTL seconds after the event. |
| `CacheSimulator.SimulateCounts` | src/cache_simulator.py:219-227 | After any sequence of events, gets equal the number of events and hits lie between zero and gets. |
| `CacheSimulator.SimulateMaxSize` | src/cache_simulator.py:227 | The recorded maximum size is the largest of the sizes after each event, or absent when there were no events. |
| `CacheSimulator.SimulateInvariant` | src/cache_simulator.py:219-227 | Between events, every entry is well formed and live at the clock, and the clock is the last event's timestamp. |
| `CacheSimulator.ReportOfSimulate` | src/cache_simulator.py:219-227 | The final report has one get per event, at most that many hits, misses equal to gets minus hits, and the largest recorded size. |
| `CacheSimulator.ProcessEvent` | src/cache_simulator.py:220-227 | One iteration on the real cache and statistics objects takes them from the state `s` to `Step` of `s`. |
| `CacheSimulator.ReplayNext` | src/cache_simulator.py:219-227 | Processing the event at index `i` takes the objects from the replay of the first `i` events to the replay of the first `i + 1`. |
| `CacheSimulator.Run` | src/cache_simulator.py:213-227 | A fresh cache and fresh statistics, fed every event in order, report exactly what `Simulate` predicts. |
| `CacheSimulator.HitThenExpire` | src/cache_simulator.py:219-227 | One key requested three times (a miss, a hit at or before its destruct time even if the clock moved backwards, a miss after it) gives 3 gets, 1 hit, 2 misses and a maximum size of 1. |
| `CacheSimulator.ScenarioSixtySeconds` | src/cache_simulator.py:18 | With the default TTL of 60, requests at 0, 30 and 61 give 3 gets, 1 hit, 2 misses and a maximum size of 1. |
| `CacheSimulator.ScenarioZeroTtl` | src/cache_simulator.py:35 | With a TTL of 0, a second request at the same second is still a hit, and one a second later misses. |
| `Histogram.Histogram.constructor` | histogram.py:10-13 | A new histogram has no bins and no counts. |
| `Histogram.Histogram.Add` | histogram.py:15-24 | A known bin's count grows by `delta`. A new bin is appended to the bins with count `delta`. Other bins are unchanged, the bins stay distinct and the bins match the counted keys. The new state is `Added` of the old one. |
| `Histogram.Histogram.LargestCount` | histogram.py:33 | The one-pass loop returns the largest count over the bins. |
| `Histogram.MaxValueBounds` | histogram.py:33 | The largest count bounds every bin's count and is the count of some bin. |
| `Histogram.FloorDiv` | histogram.py:36 | The result is the floor of the quotient for either sign of the divisor, as Python 2 integer `/` gives. |
| `Histogram.BarLength` | histogram.py:36 | When count and maximum are both non-negative or both negative, the bar is the floor of 80 * count / maximum. A negative quotient gives no bar at all, as repeating a string a negative number of times gives the empty string. |
| `Histogram.Histogram.Write` | histogram.py:26-36 | Returns `Rows`: `EmptyHistogram` when there are no bins, `ZeroDivision` when the largest count is zero, otherwise one row per bin in bin order. |
| `Histogram.BarLengthScaled` | histogram.py:36 | For a count between 1 and the maximum, the bar spans at most 80 columns, and exactly 80 if and only if the count is the maximum. |
| `Histogram.RowsFullWidth` | histogram.py:29-36 | With positive counts, writing succeeds, no bar exceeds 80 columns, and some bar spans exactly 80. |
| `Histogram.LeadingBreaks` | histogram.py:43 | Counts the run of `\n`/`\r` that starts the line: all of it is line breaks, and the next character is not. |
| `Histogram.TrailingBreaks` | histogram.py:43 | Counts the run of `\n`/`\r` that ends the line: all of it is line breaks, and the character before it is not. |
| `Histogram.StripLineBreaks` | histogram.py:43 | The result is a contiguous slice of the line that neither starts nor ends with a line break. Every character outside the slice is a line break. |
| `Histogram.FirstSeen` | histogram.py:20-23 | The bins are distinct and are exactly the lines seen. |
| `Histogram.FirstIndex` | histogram.py:20-23 | The index returned is the first occurrence of the line. |
| `Histogram.FirstSeenOrder` | histogram.py:23 | Bins are ordered by their first occurrence in the input. |
| `Histogram.OccurrencesPositive` | histogram.py:20-24 | A line has a positive count exactly when it occurs in the input. |
| `Histogram.TalliedExtend` | histogram.py:20-24 | Adding the next line with count one to the tally of the earlier lines gives the tally of all of them. |
| `Histogram.TallyOfCounts` | histogram.py:41-44 | Adding the lines one by one lists each distinct line once, in order of first occurrence, and counts its occurrences. |
| `Histogram.CountLines` | histogram.py:41-44 | The counting loop leaves a valid histogram whose bins and counts are `TallyOf` the stripped lines. |
| `Histogram.Tally` | histogram.py:39-45 | The bins are the distinct stripped lines in order of first occurrence, and each count is the number of occurrences. The rows are what `write` computes. Writing fails exactly when the input is empty. |

## Left out

- Reading files and standard input is not modelled: `my_open`, `lines`, and `sys.stdin` in `histogram.py`. The event loop takes a sequence of events, and the histogram takes a sequence of lines.
- Line parsing is not modelled: `parse_line`, `strptime`, and local-time conversion through `mktime`/`fromtimestamp`. An event is an already parsed pair of a timestamp in whole seconds and a key.
- Command-line handling is not modelled: `command_line_parser`, `main` of the cache simulator, and the default input `-`.
- The `IOError` path of `run` and the closing of files are I/O and are not modelled.
- The report text is not modelled: the text of `print_stats`, the 30-column rules, and the `%10s` labels.
- The rows of `write` carry the bin, the bar length and the count. The text printed from them is not modelled: the `#` characters and the field width `maxlen` of the longest bin.
- `CacheSimulator.NewKeyValue` uses unbounded whole seconds, not `datetime`/`timedelta`. In the Python program, `timedelta(seconds=ttl)` (src/cache_simulator.py:40) and `current_time + ttl` (src/cache_simulator.py:24) raise `OverflowError` outside `datetime`'s range (a TTL over 999999999 days, or a destruct time past year 9999). The model never fails there.
- `CacheSimulator.Cache.Get` returns the entry as a value, not as the shared object the Python program returns. A caller holding an entry does not see later `put`s of the same key through it (the Python `put` writes `.value` on that same object), and writing to a held entry does not change the cache or what the next sweep removes. The replay loop never calls `get`, so its results are unaffected.
- `CacheSimulator.Cache.Valid` rules out entries under an unset clock. A Python caller that resets `current_time` to `None` after a put would make the next sweep raise `TypeError` (comparing a `datetime` with `None`); the model does not represent that error.
- `CacheSimulator.Cache` gives each instance its own mapping and clock. In the source, `keyvalues` and `current_time` are class attributes, and the dictionary is shared by every `Cache` in the process. The driver creates one cache, so its behaviour is the same.
- `CacheSimulator.NewKeyValue` takes the value at construction. The source sets the `.value` attribute right after `setdefault`, which gives the same entry.
- `CacheSimulator.PutSpec` follows the code: overwriting a key never changes `last_updated`. The field's name suggests the most recent write, but the code sets `last_updated` only when the entry is created (src/cache_simulator.py:26).
- `CacheSimulator.Run` fixes the key type to strings and the stored value to `None`, as the driver uses them. The `Cache` class itself is generic.
- `Histogram.Tally` models `main` with the default `delta` of 1 only.
