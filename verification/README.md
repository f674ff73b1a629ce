# Jetson telemetry exporter: sampling, parsing and Prometheus sink

A Dafny model of the sampling pipeline of the Jetson GPU telemetry exporter
(`gpumonitoring`). Each pass of its loop does five things:

- it collects one `tegrastats` line and tokenizes it into a buffer keyed by a
  fixed vocabulary (GPU_UTIL, GPU_FREQ, GPU_TEMP, CPU, CPU_TEMP, RAM,
  EMC_UTIL, EMC_FREQ, NVENC, NVENC1, NVDEC, NVDEC1);
- it collects the nvmap client listing and parses it into per-process GPU
  memory;
- it dispatches both as store events and records each event's identity in
  `metric_set`;
- on any exception, it replays `metric_set` with the value 0.0 instead;
- the Prometheus sink lower-cases each event's key, looks it up in a
  13-entry help table, registers the gauge once, and sets the child series
  `(name, label, index)`.

Modules, in dependency order:

| module | file | models |
|---|---|---|
| `Options` | options.dfy | `Option` |
| `Text` | text.dfy | Python `split(c)`, `split()`, `strip()`, `lower()`, `replace(c, "")`, `in`, `[:-1]` |
| `Decimal` | decimal.dfy | Python `int()` on digit strings and `str()` on naturals |
| `OrderedMap` | ordered_map.dfy | a Python dict as an association list in insertion order |
| `Prometheus` | prometheus.dfy | `DataBaseProm.store`, with the client library replaced by a gauge map and a series map |
| `Tegrastats` | tegrastats.dfy | `_parse_tegra_stats` as a pure step over a token cursor, and the loop around it |
| `ProcessMemory` | process_memory.dfy | `_parse_per_process_gpu_stats` |
| `Dispatch` | dispatch.dfy | `GpuEvent`, `store_gpu_event`, `_produce_gpu_event`, `_nullify_gpu_data`, `metric_set` |
| `Tick` | tick.dfy | one pass of `_process_gpu_stats_forever`, and a finite run of passes |
| `Examples` | examples.dfy | concrete tegrastats tokens, and the nvmap line quoted in the comment at gpumonitoring/gpu_module.py:98-100, stated as lemmas about the model with their literal inputs fixed |

Three behaviours of the code that a reader of the loop might not expect:

- The "first CPU wins" guard at gpumonitoring/gpu_module.py:138 tests only
  the `CPU` key. A `CPU_TEMP` entry does not block a later `CPU` payload
  (`Tegrastats.StepCpu`).
- The per-process listing is stripped (gpumonitoring/gpu_module.py:89)
  before its first and last lines are dropped (gpumonitoring/gpu_module.py:95).
  So the last line dropped is the last real line of the listing, not a
  trailing blank line (`ProcessMemory.MiddleLinesOfJoin`).
- A temperature is stored as `entity.split("@")[1][:-1]`
  (gpumonitoring/gpu_module.py:163 and 167): the text after the first `@`
  up to the next `@`, without its last character ("GPU@45.5C" gives
  "45.5"). It is not parsed as a number (`Examples.TempTextOf`).

## Model

| member | source | states |
|---|---|---|
| Tegrastats.Step | gpumonitoring/gpu_module.py:124-169 | returns the end sentinel exactly when no token is left; otherwise consumes one token, or two for RAM/CPU/EMC_FREQ/GR3D_FREQ/NVENC/NVENC1/NVDEC/NVDEC1; a payload entity at the last token always fails, and a failure happens only on a payload entity whose payload is missing or holds a non-integer frequency |
| Tegrastats.StepIgnores | gpumonitoring/gpu_module.py:125-169 | a token outside the payload set and without a temperature marker is consumed alone and leaves the buffer unchanged |
| Tegrastats.StepRam | gpumonitoring/gpu_module.py:129-132 | RAM stores the longest "/"-free prefix of its payload and changes no other key |
| Tegrastats.StepCpu | gpumonitoring/gpu_module.py:134-139 | CPU always consumes its payload; if CPU is already present the buffer is unchanged, otherwise only CPU is set, to the per-core list |
| Tegrastats.CoreLoadsCut | gpumonitoring/gpu_module.py:136-137 | the per-core fields rejoined with "," give the payload without brackets, and each CPU entry is its field cut just before the first "%" |
| Tegrastats.BracketListOfBracketed | gpumonitoring/gpu_module.py:136 | removing the brackets of "[inside]" and splitting on "," splits `inside` on "," |
| Tegrastats.ScaleMHz | gpumonitoring/gpu_module.py:144 | `str(int(t) * 1000000)` is defined exactly on digit strings, and is then the canonical decimal (no leading zero) of the number `t` spells times 1,000,000 |
| Tegrastats.ScaleAllMHz | gpumonitoring/gpu_module.py:152 | the list scaling fails exactly when some entry is not an integer; otherwise it has one entry per input, in order, each the canonical decimal of that input times 1,000,000 |
| Tegrastats.StepEmc | gpumonitoring/gpu_module.py:141-146 | EMC_FREQ fails exactly when the text after the last "@" is not an integer; otherwise EMC_UTIL is the text before the first "%", EMC_FREQ is the canonical decimal of that integer times 1,000,000, and no other key changes |
| Tegrastats.StepGr3d | gpumonitoring/gpu_module.py:148-154 | GR3D_FREQ fails exactly when some per-cluster frequency is not an integer; otherwise GPU_UTIL is the text before the first "%", GPU_FREQ holds, in order, the canonical decimal of each cluster's frequency times 1,000,000, and no other key changes |
| Tegrastats.StepCodec | gpumonitoring/gpu_module.py:156-160 | for NVENC/NVENC1/NVDEC/NVDEC1 a payload "off" changes nothing; any other payload fails exactly when the text after its last "@" is not an integer, and otherwise only that key is set, to the canonical decimal of the integer times 1,000,000 |
| Tegrastats.StepTemps | gpumonitoring/gpu_module.py:162-168 | a token holding "GPU@"/"gpu@" sets GPU_TEMP, and one holding "CPU@"/"cpu@" sets CPU_TEMP, to the second "@"-field without its last character; otherwise those keys keep their values, and no other key changes |
| Tegrastats.ApplyPayload | gpumonitoring/gpu_module.py:129-160 | only the entities that read a frequency (EMC_FREQ, GR3D_FREQ, NVENC, NVENC1, NVDEC, NVDEC1) can fail; RAM and CPU always succeed |
| Tegrastats.ParseTokens | gpumonitoring/gpu_module.py:280-288 | stepping until the end sentinel, from a buffer with distinct keys and lists exactly under CPU and GPU_FREQ, ends with a buffer of the same shape when it succeeds |
| Tegrastats.ParseLine | gpumonitoring/gpu_module.py:277-289 | a successful parse of a line yields a buffer with distinct keys, holding lists exactly under CPU and GPU_FREQ |
| ProcessMemory.MiddleLinesOfJoin | gpumonitoring/gpu_module.py:95 | the first and the last line are dropped whatever they hold, and the lines between come back unchanged |
| ProcessMemory.ParseProcessLine | gpumonitoring/gpu_module.py:97-101 | a line parses exactly when `split()` gives at least four fields and field 3 minus its last character is an integer; the name is then one whitespace-free field of the line |
| ProcessMemory.ParseProcessLineOfFields | gpumonitoring/gpu_module.py:96-101 | a line of whitespace-free fields separated by any non-empty runs of whitespace, and padded with any whitespace, fails with fewer than four fields; otherwise it succeeds exactly when field 3 minus its last character is an integer, and maps field 1 to that integer |
| ProcessMemory.ParseAll | gpumonitoring/gpu_module.py:96-101 | parsing the lines succeeds exactly when every line parses, and then yields each line's entry in order |
| ProcessMemory.PutAllLaterWins | gpumonitoring/gpu_module.py:101 | after the dictionary assignments, a name holds the amount from its last line, or its earlier value if no line names it |
| ProcessMemory.ParseProcesses | gpumonitoring/gpu_module.py:93-103 | the parsed usage is a dict: each process name appears once |
| ProcessMemory.ParseProcessesSpec | gpumonitoring/gpu_module.py:93-103 | the listing parses exactly when every middle line parses, and then each name maps to the amount on its last line and no other name appears |
| Dispatch.StoreGpuEventSeries | gpumonitoring/gpu_module.py:66-74 | `store_gpu_event` swaps roles: the event's series is named by `metric_key` lower-cased and labelled with `metric_name`, and its index is "0" when absent and `str(index)` otherwise |
| Dispatch.RecordAdds | gpumonitoring/gpu_module.py:179 | `metric_set[key].add(name)` adds exactly that pair and keeps the keys distinct and each set duplicate-free |
| Dispatch.Produce | gpumonitoring/gpu_module.py:171-265 | the buffer's stores come first and the per-process stores follow, one per process in the dict's order, each storing the process's amount under the per-process metric, labelled with its name, with no index |
| Dispatch.RecordAllAdds | gpumonitoring/gpu_module.py:171-265 | after a run of additions, `metric_set` holds exactly the old pairs plus one (label, recorded name) pair per emission, so it only grows |
| Dispatch.IndexedEmissionsSound | gpumonitoring/gpu_module.py:203-212 | every store of a list field carries the index of an entry of the list, is that entry, and the entry is not a skipped "off" |
| Dispatch.IndexedEmissionsComplete | gpumonitoring/gpu_module.py:181-188 | every list entry that is not skipped is stored under its position in the full list |
| Dispatch.EmissionShape | gpumonitoring/gpu_module.py:171-265 | every dispatched event names a metric in the sink's help table; events without an index record their own key, and indexed events record "metric_{i}" under their field key |
| Dispatch.ProducedRecognized | gpumonitoring/gpu_module.py:171-265 | the sink accepts the name of every event dispatch produces |
| Dispatch.ProduceRecords | gpumonitoring/gpu_module.py:171-265 | dispatch grows `metric_set` by exactly the (label, recorded name) pair of each event, keeps it well formed, and records only names dispatch can record |
| Dispatch.CpuOffSkipped | gpumonitoring/gpu_module.py:203-212 | a CPU entry "off" yields no store with its index under the CPU metric and no `metric_set` name for that core |
| Dispatch.ListEntryEmitted | gpumonitoring/gpu_module.py:180-212 | each non-skipped CPU entry and each GPU_FREQ entry is stored with its position as index and "metric_{i}" as the recorded name |
| Dispatch.ScalarEntryEmitted | gpumonitoring/gpu_module.py:172-261 | in a buffer with distinct keys, each scalar field is stored exactly once under its metric, labelled with its field key, with no index |
| Dispatch.ScalarEmissionSound | gpumonitoring/gpu_module.py:172-261 | every index-free store of the buffer is the store of one of its scalar fields |
| Dispatch.ProcessEmitted | gpumonitoring/gpu_module.py:263-265 | each process is stored under the per-process metric and labelled with its name, which is also its `metric_set` key |
| Dispatch.MetricNameRecognized | gpumonitoring/db_prometheus.py:56-70 | every field key's metric, lower-cased, is in the help table |
| Dispatch.PerProcessRecognized | gpumonitoring/db_prometheus.py:69 | the per-process metric is already lower case and is in the help table |
| Dispatch.IndexedNameUnrecognized | gpumonitoring/db_prometheus.py:51-74 | every name "tegrastats_gpu_freq_{i}" / "tegrastats_cpu_usage_{i}" is lower case and not in the help table, so the sink drops it |
| Dispatch.Nullify | gpumonitoring/gpu_module.py:76-82 | every zeroing event is the value-0.0, index-free event of its own (label, key) pair, and its label is a key of `metric_set` |
| Dispatch.NullifyCoversRecorded | gpumonitoring/gpu_module.py:76-82 | zeroing issues the event for a (key, name) pair exactly when that pair is recorded in `metric_set` |
| Dispatch.NullifyNoDup | gpumonitoring/gpu_module.py:78-80 | zeroing issues no event twice, so there is exactly one event per recorded pair |
| Dispatch.NullifyExample | gpumonitoring/gpu_module.py:76-82 | with GPU_UTIL and CPU_TEMP recorded, zeroing issues exactly the two stores of 0.0 for them |
| Dispatch.NullifyZeroes | gpumonitoring/gpu_module.py:76-82 | after zeroing, the index-free series of every recorded pair with a recognized name holds 0.0 |
| Dispatch.NullifyKeepsIndexedSeries | gpumonitoring/gpu_module.py:76-82 | zeroing leaves every per-core and per-cluster series at its last value, since the names it replays for them are dropped by the sink |
| Prometheus.SeriesOf | gpumonitoring/db_prometheus.py:82-84 | a message addresses the series named by its lower-cased key, with label defaulting to "none" and index to "0"; an index is rendered as `str(index)`, which reads back as the index |
| Prometheus.SeriesOfIndex | gpumonitoring/db_prometheus.py:82-84 | index 0 and a missing index address the same series, and distinct indices address distinct series |
| Prometheus.ToFloat | gpumonitoring/db_prometheus.py:86 | `float(value)` of a string is the abstract string parse, of an int or a float succeeds with that number, and of a list fails |
| Prometheus.Store | gpumonitoring/db_prometheus.py:49-88 | a store only adds gauges and never changes a registered one; it changes no series other than the one the message addresses; and it keeps every gauge carrying its table help text, with every series under a registered gauge |
| Prometheus.StoreUnrecognized | gpumonitoring/db_prometheus.py:72-74 | a name outside the help table is dropped: nothing is registered and no series changes |
| Prometheus.StoreRecognized | gpumonitoring/db_prometheus.py:55-86 | a recognized name ends up registered with its help text, and its series exists and holds the converted value |
| Prometheus.StoreInvalidValue | gpumonitoring/db_prometheus.py:85-88 | a value `float()` rejects leaves an existing series as it was |
| Prometheus.StoreRegistersOnce | gpumonitoring/db_prometheus.py:55 | storing under an already registered name leaves the gauge map unchanged |
| Prometheus.StoreAll | gpumonitoring/db_prometheus.py:49-88 | a run of stores only adds gauges, leaves every series no message addresses at its value, and keeps the sink consistent |
| Prometheus.StoreAllSetsSeries | gpumonitoring/db_prometheus.py:82-86 | after a run of stores, a recognized series that some message addresses holds the value those messages carry |
| Tick.Collect | gpumonitoring/gpu_module.py:270-301 | the collection and parse stages all succeed exactly when both parses succeed, and then hand on both results |
| Tick.CollectShape | gpumonitoring/gpu_module.py:270-301 | the stages run before a raise are a non-empty prefix of the pass that stops short of dispatch, and include per-process collection exactly when the tegrastats stages succeeded |
| Tick.Tick | gpumonitoring/gpu_module.py:267-310 | a pass succeeds exactly when both parses succeed, and then runs every stage and issues exactly the dispatch events; otherwise it issues only the zeroing events and leaves `metric_set` unchanged |
| Tick.StatsFailureSkipsUsage | gpumonitoring/gpu_module.py:277-295 | when the tegrastats stages fail, per-process collection is never attempted and the pass does not depend on its output |
| Tick.TickKeepsGood | gpumonitoring/gpu_module.py:267-310 | from a state where `metric_set` is well formed, holds only names dispatch records, and the sink is consistent, a pass keeps all three, and `metric_set` never loses a pair |
| Tick.TickStoresRecognized | gpumonitoring/gpu_module.py:303-307 | a successful pass makes only stores the sink accepts |
| Tick.TickFailureZeroes | gpumonitoring/gpu_module.py:309-310 | a failing pass sets to 0.0 the index-free series of every recorded recognized name |
| Tick.TickFailureKeepsIndexedSeries | gpumonitoring/gpu_module.py:309-310 | a failing pass leaves every per-core and per-cluster series at its last value |
| Tick.Run | gpumonitoring/gpu_module.py:267-310 | over any finite run of passes from a state meeting that invariant, the invariant holds and `metric_set` only grows |
| Text.JoinSplit | gpumonitoring/gpu_module.py:131 | joining the pieces of `s.split(c)` with `c` gives back `s` |
| Text.SplitJoin | gpumonitoring/gpu_module.py:95 | splitting a join of separator-free pieces gives back the pieces |
| Text.BeforeIsPrefix | gpumonitoring/gpu_module.py:131 | `s.split(c)[0]` is the longest prefix of `s` free of `c` |
| Text.AfterIsSuffix | gpumonitoring/gpu_module.py:144 | `s.split(c)[-1]` is the longest suffix of `s` free of `c` |
| Text.RemoveAllAppend | gpumonitoring/gpu_module.py:136 | `replace(c, "")` keeps the order of what remains: removing from a concatenation is the concatenation of the removals |
| Text.RemoveAllKeeps | gpumonitoring/gpu_module.py:136 | `replace(c, "")` removes every `c` and keeps every other character as often as before |
| Text.Strip | gpumonitoring/gpu_module.py:119 | `strip()` yields the infix surrounded only by whitespace, which neither starts nor ends with whitespace |
| Text.Words | gpumonitoring/gpu_module.py:97 | `split()` yields only non-empty whitespace-free words, and yields none exactly when the string is all whitespace |
| Text.WordsSpaced | gpumonitoring/gpu_module.py:97-100 | words separated by non-empty runs of whitespace and padded with any whitespace split back into exactly those words |
| Text.Lower | gpumonitoring/db_prometheus.py:51 | `lower()` keeps the length, maps each letter A-Z to its lower-case letter, leaves no upper-case letter and keeps every other character |
| Decimal.ParseNat | gpumonitoring/gpu_module.py:144 | `int(s)` succeeds exactly on non-empty digit strings |
| Decimal.NatToString | gpumonitoring/gpu_module.py:144 | `str(n)` is a digit string that starts with "0" only when it is "0" itself |
| Decimal.ParseNatToString | gpumonitoring/gpu_module.py:144 | `int(str(n)) == n` |
| Decimal.NatToStringOfParse | gpumonitoring/gpu_module.py:152 | `str(int(s)) == s` for a digit string without a superfluous leading zero |
| Examples.RamStep | gpumonitoring/gpu_module.py:129-132 | "RAM 1234/8192MB" stores RAM "1234" |
| Examples.CpuStep | gpumonitoring/gpu_module.py:134-139 | "CPU [10%@102,off,30%@204]" stores CPU ["10","off","30"] |
| Examples.EmcStep | gpumonitoring/gpu_module.py:141-146 | "EMC_FREQ 12%@1600" stores EMC_UTIL "12" and EMC_FREQ "1600000000" |
| Examples.Gr3dStep | gpumonitoring/gpu_module.py:148-154 | "GR3D_FREQ 45%@[204,204]" stores GPU_UTIL "45" and GPU_FREQ ["204000000","204000000"] |
| Examples.TempTextOf | gpumonitoring/gpu_module.py:162-164 | the temperature text of "GPU@45.5C" is "45.5" |
| Examples.ProcessLine | gpumonitoring/gpu_module.py:98-101 | the line "user  rosie-perceptio    27278     753528K" of the comment, with its runs of spaces, parses to ("rosie-perceptio", 753528) |
| OrderedMap.GetSpec | gpumonitoring/gpu_module.py:138 | a key is absent exactly when it is not among the keys, and a present key's value is stored in some entry |
| OrderedMap.GetPutSame | gpumonitoring/gpu_module.py:145-146 | after `d[k] = v`, `d[k]` is `v` |
| OrderedMap.GetPutOther | gpumonitoring/gpu_module.py:145-146 | `d[k] = v` leaves every other key's value unchanged |
| OrderedMap.PutKeys | gpumonitoring/gpu_module.py:132 | `d[k] = v` keeps the insertion order: an existing key keeps its place and a new key goes last |
| OrderedMap.PutDistinct | gpumonitoring/gpu_module.py:101 | `d[k] = v` keeps the keys distinct |

## Left out

- Subprocess launching, timeouts, `sudo`, `killpg` and UTF-8 decoding in `_get_tegra_stats` and `_get_per_process_gpu_stats` are operating-system I/O. Their outcomes are the `Option<string>` inputs of `Tick.Tick`, where `None` means the call raised.
- `threading.Thread`, `run()`, `time.sleep` and the endless loop are concurrency and timing. One pass is `Tick.Tick`, and a finite sequence of passes is `Tick.Run`.
- The sink's `threading.Lock` only serves concurrent callers, and the model has none.
- The `prometheus_client` Gauge, REGISTRY and HTTP server are a foreign library. They are replaced by a map from gauge name to help text and a map from series to value. As `labels()` does, a new child series starts at 0.0.
- Python `float()` on a string is floating-point parsing. It is an abstract parameter `parse: string -> Option<real>`.
- Prometheus.ToFloat: Python `float()` of an int rounds to the nearest double above 2^53 and raises `OverflowError` above about 1.8e308, in which case the series keeps its value. The model converts an int exactly and never fails on one, so a per-process amount of that size is stored as its exact value, not rounded, and never left unchanged.
- Decimal.ParseNat: Python `int()` also accepts signs, surrounding whitespace and `_` separators. The model restricts it to non-empty ASCII digit strings and treats everything else as raising.
- Text.Strip: whitespace is the ASCII subset of Python's Unicode whitespace.
- Text.Words: the same ASCII restriction applies.
- Text.Lower: it lowers ASCII letters only.
- `datetime` timestamps, `module`/`object`/`source` fields and `humps.camelize` do not affect the sink, which reads only `key`, `value`, `label` and `index`. Camelizing is the identity on those keys.
- Logging is left out.
- gpumonitoring/__main__.py (signal handling, environment variable, port, shutdown) is not part of this model.
- Python sets in `metric_set` iterate in an unspecified order. The model keeps insertion order, with no duplicates.
- Dispatch.Elements: `enumerate(v)` on a scalar under a list key would visit its characters. The model does the same, but a successful parse never produces that case (`Tegrastats.ParseLine`).
- Tick.Tick: an exception raised inside `_nullify_gpu_data` itself is caught and logged in the source. The model's zeroing cannot raise.
