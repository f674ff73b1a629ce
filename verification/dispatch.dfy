/** The dispatcher (`GpuEvent`, `store_gpu_event`, `_produce_gpu_event`,
    `_nullify_gpu_data`): the parsed buffer and the per-process usage become
    store events, and every event's identity is recorded in `metric_set`, an
    append-only map from a field key (or process name) to recorded names,
    which zeroing replays with value 0.0. */
module Dispatch {
  import opened Options
  import opened Text
  import opened Decimal
  import OrderedMap
  import opened Prometheus
  import opened Tegrastats
  import ProcessMemory

  /** A store event as a closed record: the sink's key, the value, the
      `label` label value and an optional `index`. */
  datatype GpuEvent = GpuEvent(key: string, value: Value, labelValue: string, index: Option<nat>)

  /** `store_gpu_event(metric_value, metric_name, metric_key, **kwargs)`. The
      roles swap: the event's key is `metric_key` (the tegrastats metric name)
      and its label is `metric_name` (the field key or process name). */
  function StoreGpuEvent(metricValue: Value, metricName: string, metricKey: string, index: Option<nat>): GpuEvent {
    GpuEvent(metricKey, metricValue, metricName, index)
  }

  /** The dictionary the sink receives; the label is always present. */
  function ToMsg(e: GpuEvent): Msg {
    Msg(e.key, e.value, Some(e.labelValue), e.index)
  }

  function ToMsgs(es: seq<GpuEvent>): seq<Msg> {
    seq(|es|, i requires 0 <= i < |es| => ToMsg(es[i]))
  }

  const PerProcessMetric: string := "tegrastats_per_process_gpu_mem"

  /** The tegrastats metric a field key is published under. */
  function MetricName(k: FieldKey): string {
    match k
    case GpuUtil => "tegrastats_gpu_util"
    case GpuFreq => "tegrastats_gpu_freq"
    case GpuTemp => "tegrastats_gpu_temp"
    case Cpu => "tegrastats_cpu_usage"
    case CpuTemp => "tegrastats_cpu_temp"
    case Ram => "tegrastats_ram_usage"
    case EmcUtil => "tegrastats_emc_util"
    case EmcFreq => "tegrastats_emc_freq"
    case Nvenc => "tegrastats_nvenc_freq"
    case Nvenc1 => "tegrastats_nvenc1_freq"
    case Nvdec => "tegrastats_nvdec_freq"
    case Nvdec1 => "tegrastats_nvdec1_freq"
  }

  ghost predicate NoUpper(s: string) {
    forall i :: 0 <= i < |s| ==> !IsUpper(s[i])
  }

  lemma MetricNameLower(k: FieldKey)
    ensures NoUpper(MetricName(k))
    ensures Lower(MetricName(k)) == MetricName(k)
  {
    var n := MetricName(k);
    assert forall i :: 0 <= i < |n| ==> !IsUpper(n[i]);
    LowerOfLower(n);
  }

  /** Every field key's metric, and the per-process metric, is in the sink's
      help table. */
  lemma MetricNameRecognized(k: FieldKey)
    ensures Recognized(Lower(MetricName(k)))
  {
    MetricNameLower(k);
    MetricNameInTable(k);
  }

  lemma MetricNameInTable(k: FieldKey)
    ensures MetricName(k) in HelpTable
  {
    match k
    case GpuUtil => assert "tegrastats_gpu_util" in HelpTable;
    case GpuFreq => assert "tegrastats_gpu_freq" in HelpTable;
    case GpuTemp => assert "tegrastats_gpu_temp" in HelpTable;
    case Cpu => assert "tegrastats_cpu_usage" in HelpTable;
    case CpuTemp => assert "tegrastats_cpu_temp" in HelpTable;
    case Ram => assert "tegrastats_ram_usage" in HelpTable;
    case EmcUtil => assert "tegrastats_emc_util" in HelpTable;
    case EmcFreq => assert "tegrastats_emc_freq" in HelpTable;
    case Nvenc => assert "tegrastats_nvenc_freq" in HelpTable;
    case Nvenc1 => assert "tegrastats_nvenc1_freq" in HelpTable;
    case Nvdec => assert "tegrastats_nvdec_freq" in HelpTable;
    case Nvdec1 => assert "tegrastats_nvdec1_freq" in HelpTable;
  }

  lemma PerProcessRecognized()
    ensures Lower(PerProcessMetric) == PerProcessMetric
    ensures Recognized(Lower(PerProcessMetric))
  {
    var p := PerProcessMetric;
    assert forall i :: 0 <= i < |p| ==> !IsUpper(p[i]);
    LowerOfLower(p);
    assert PerProcessMetric in HelpTable;
  }

  // ---------------------------------------------------------------------------
  // metric_set

  /** `metric_set`: key to the names recorded under it, in insertion order
      (the Python sets are modelled as duplicate-free lists). */
  type MetricSet = OrderedMap.Assoc<string, seq<string>>

  ghost predicate NoDup<T>(xs: seq<T>) {
    forall i, j :: 0 <= i < j < |xs| ==> xs[i] != xs[j]
  }

  ghost predicate WellFormed(ms: MetricSet) {
    && OrderedMap.DistinctKeys(ms)
    && forall i :: 0 <= i < |ms| ==> NoDup(ms[i].1)
  }

  /** `name in metric_set[key]`. */
  predicate Recorded(ms: MetricSet, key: string, name: string) {
    match OrderedMap.Get(ms, key)
    case Some(names) => name in names
    case None => false
  }

  /** `metric_set[key].add(name)`. */
  function Record(ms: MetricSet, key: string, name: string): MetricSet {
    match OrderedMap.Get(ms, key)
    case None => OrderedMap.Put(ms, key, [name])
    case Some(names) => if name in names then ms else OrderedMap.Put(ms, key, names + [name])
  }

  /** Recording adds exactly the one pair and keeps the set well formed. */
  lemma RecordAdds(ms: MetricSet, key: string, name: string)
    requires WellFormed(ms)
    ensures WellFormed(Record(ms, key, name))
    ensures forall k, n :: Recorded(Record(ms, key, name), k, n) <==> Recorded(ms, k, n) || (k == key && n == name)
  {
    RecordKeepsWellFormed(ms, key, name);
    RecordRecords(ms, key, name);
  }

  lemma RecordKeepsWellFormed(ms: MetricSet, key: string, name: string)
    requires WellFormed(ms)
    ensures WellFormed(Record(ms, key, name))
  {
    match OrderedMap.Get(ms, key)
    case None =>
      NoDupAfterPut(ms, key, [name]);
    case Some(names) =>
      if name !in names {
        OrderedMap.GetSpec(ms, key);
        var i :| 0 <= i < |ms| && ms[i] == (key, names);
        assert NoDup(ms[i].1);
        NoDupAfterPut(ms, key, names + [name]);
      }
  }

  lemma RecordRecords(ms: MetricSet, key: string, name: string)
    ensures forall k, n :: Recorded(Record(ms, key, name), k, n) <==> Recorded(ms, k, n) || (k == key && n == name)
  {
    match OrderedMap.Get(ms, key)
    case None =>
      OrderedMap.GetPutSame(ms, key, [name]);
      OrderedMap.GetPutOthers(ms, key, [name]);
    case Some(names) =>
      if name !in names {
        OrderedMap.GetPutSame(ms, key, names + [name]);
        OrderedMap.GetPutOthers(ms, key, names + [name]);
        assert forall n :: n in names + [name] <==> n in names || n == name;
      }
  }

  lemma NoDupAfterPut(ms: MetricSet, key: string, names: seq<string>)
    requires WellFormed(ms)
    requires NoDup(names)
    ensures WellFormed(OrderedMap.Put(ms, key, names))
  {
    OrderedMap.PutDistinct(ms, key, names);
  }

  /** The event zeroing issues for one recorded pair. */
  function ZeroEvent(key: string, name: string): GpuEvent {
    StoreGpuEvent(Float(0.0), key, name, None)
  }

  /** `_nullify_gpu_data`: one zero event per recorded (key, name) pair, keys
      in insertion order. Every event has value 0.0 and no index, and its
      label is a key of `metric_set`. */
  function Nullify(ms: MetricSet): (r: seq<GpuEvent>)
    ensures forall e :: e in r ==> e == ZeroEvent(e.labelValue, e.key)
    ensures forall e :: e in r ==> e.labelValue in OrderedMap.Keys(ms)
  {
    if |ms| == 0 then []
    else
      var row := seq(|ms[0].1|, j requires 0 <= j < |ms[0].1| => ZeroEvent(ms[0].0, ms[0].1[j]));
      var rest := Nullify(ms[1..]);
      assert OrderedMap.Keys(ms) == [ms[0].0] + OrderedMap.Keys(ms[1..]);
      row + rest
  }

  /** Zeroing issues an event for a pair exactly when the pair is recorded. */
  lemma {:induction false} NullifyCoversRecorded(ms: MetricSet, key: string, name: string)
    requires WellFormed(ms)
    ensures ZeroEvent(key, name) in Nullify(ms) <==> Recorded(ms, key, name)
  {
    if |ms| > 0 {
      NullifyCoversRecorded(ms[1..], key, name);
      var row := seq(|ms[0].1|, j requires 0 <= j < |ms[0].1| => ZeroEvent(ms[0].0, ms[0].1[j]));
      assert Nullify(ms) == row + Nullify(ms[1..]);
      assert ZeroEvent(key, name) in row <==> key == ms[0].0 && name in ms[0].1 by {
        if name in ms[0].1 && key == ms[0].0 {
          var j :| 0 <= j < |ms[0].1| && ms[0].1[j] == name;
          assert row[j] == ZeroEvent(key, name);
        }
      }
    }
  }

  /** Zeroing issues no event twice: with the previous lemma, exactly one
      event per recorded pair. */
  lemma {:induction false} NullifyNoDup(ms: MetricSet)
    requires WellFormed(ms)
    ensures NoDup(Nullify(ms))
  {
    if |ms| > 0 {
      NullifyNoDup(ms[1..]);
      var row := seq(|ms[0].1|, j requires 0 <= j < |ms[0].1| => ZeroEvent(ms[0].0, ms[0].1[j]));
      var rest := Nullify(ms[1..]);
      assert Nullify(ms) == row + rest;
      forall e | e in rest
        ensures e.labelValue != ms[0].0
      {
        var i :| 0 <= i < |ms[1..]| && OrderedMap.Keys(ms[1..])[i] == e.labelValue;
        assert ms[i + 1].0 == e.labelValue;
      }
      assert NoDup(ms[0].1);
      forall i, j | 0 <= i < j < |row + rest|
        ensures (row + rest)[i] != (row + rest)[j]
      {
        if j < |row| {
          assert ms[0].1[i] != ms[0].1[j];
        } else if i < |row| {
          assert (row + rest)[j] in rest;
        }
      }
    }
  }

  // ---------------------------------------------------------------------------
  // _produce_gpu_event

  /** A store event together with the name recorded for it in `metric_set`
      under the event's label. */
  datatype Emission = Emission(event: GpuEvent, recorded: string)

  /** "tegrastats_gpu_freq_{i}" / "tegrastats_cpu_usage_{i}". */
  function IndexedName(k: FieldKey, i: nat): string {
    MetricName(k) + "_" + NatToString(i)
  }

  /** The store of the `i`-th entry of a per-cluster or per-core list. */
  function IndexedEmission(k: FieldKey, x: string, i: nat): Emission {
    Emission(StoreGpuEvent(Str(x), KeyName(k), MetricName(k), Some(i)), IndexedName(k, i))
  }

  /** CPU entries equal to "off" are skipped; every other entry is stored. */
  predicate Emits(k: FieldKey, x: string) {
    !(k == Cpu && x == "off")
  }

  /** `e` is the store of entry `i - from` of `xs`, where `i` is the index
      the event carries, and that entry is one that is stored. */
  ghost predicate FromEntry(k: FieldKey, xs: seq<string>, from: nat, e: Emission) {
    && e.event.index.Some?
    && from <= e.event.index.value < from + |xs|
    && Emits(k, xs[e.event.index.value - from])
    && e == IndexedEmission(k, xs[e.event.index.value - from], e.event.index.value)
  }

  /** `for i, x in enumerate(xs)` from position `from`, with the CPU "off"
      skip. */
  function IndexedEmissions(k: FieldKey, xs: seq<string>, from: nat): seq<Emission>
    decreases |xs|
  {
    if |xs| == 0 then []
    else (if Emits(k, xs[0]) then [IndexedEmission(k, xs[0], from)] else []) + IndexedEmissions(k, xs[1..], from + 1)
  }

  /** Every emission stores an entry of the list, under that entry's
      position, and the entry is not skipped. */
  lemma {:induction false} IndexedEmissionsSound(k: FieldKey, xs: seq<string>, from: nat)
    ensures forall e :: e in IndexedEmissions(k, xs, from) ==> FromEntry(k, xs, from, e)
    decreases |xs|
  {
    if |xs| > 0 {
      var here := if Emits(k, xs[0]) then [IndexedEmission(k, xs[0], from)] else [];
      var rest := IndexedEmissions(k, xs[1..], from + 1);
      assert IndexedEmissions(k, xs, from) == here + rest;
      IndexedEmissionsSound(k, xs[1..], from + 1);
      forall e | e in here + rest
        ensures FromEntry(k, xs, from, e)
      {
        if e in rest {
          assert FromEntry(k, xs[1..], from + 1, e);
          assert xs[1..][e.event.index.value - (from + 1)] == xs[e.event.index.value - from];
        }
      }
    }
  }

  /** Every entry that is not skipped is emitted under its position. */
  lemma {:induction false} IndexedEmissionsComplete(k: FieldKey, xs: seq<string>, from: nat)
    ensures forall i :: 0 <= i < |xs| && Emits(k, xs[i]) ==> IndexedEmission(k, xs[i], from + i) in IndexedEmissions(k, xs, from)
    decreases |xs|
  {
    if |xs| > 0 {
      var here := if Emits(k, xs[0]) then [IndexedEmission(k, xs[0], from)] else [];
      var rest := IndexedEmissions(k, xs[1..], from + 1);
      assert IndexedEmissions(k, xs, from) == here + rest;
      IndexedEmissionsComplete(k, xs[1..], from + 1);
      forall i | 0 <= i < |xs| && Emits(k, xs[i])
        ensures IndexedEmission(k, xs[i], from + i) in here + rest
      {
        if i == 0 {
          assert (here + rest)[0] == IndexedEmission(k, xs[0], from);
        } else {
          assert xs[1..][i - 1] == xs[i] && from + 1 + (i - 1) == from + i;
          assert IndexedEmission(k, xs[i], from + i) in rest;
        }
      }
    }
  }

  /** The elements Python's `enumerate(v)` visits: the list, or the characters
      of a string. */
  function Elements(v: FieldValue): seq<string> {
    match v
    case Items(xs) => xs
    case Scalar(s) => seq(|s|, i requires 0 <= i < |s| => [s[i]])
  }

  /** A buffer value handed to the sink as one value. */
  function AsValue(v: FieldValue): Value {
    match v
    case Scalar(s) => Str(s)
    case Items(xs) => StrList(xs)
  }

  /** The store of a scalar entry: its value under the key's metric,
      labelled with the key, with no index. */
  function ScalarEmission(k: FieldKey, v: FieldValue): Emission {
    Emission(StoreGpuEvent(AsValue(v), KeyName(k), MetricName(k), None), MetricName(k))
  }

  /** The emissions of one buffer entry. */
  function FieldEmissions(k: FieldKey, v: FieldValue): seq<Emission> {
    if IsListKey(k) then IndexedEmissions(k, Elements(v), 0)
    else [ScalarEmission(k, v)]
  }

  /** The concatenation of a sequence of sequences, in order. */
  function Flatten<T>(xss: seq<seq<T>>): seq<T> {
    if |xss| == 0 then [] else xss[0] + Flatten(xss[1..])
  }

  /** Everything in a flattening comes from one of its parts. */
  lemma {:induction false} FlattenSource<T>(xss: seq<seq<T>>, e: T) returns (j: nat)
    requires e in Flatten(xss)
    ensures j < |xss| && e in xss[j]
  {
    if e in xss[0] {
      j := 0;
    } else {
      var j' := FlattenSource(xss[1..], e);
      j := j' + 1;
    }
  }

  /** Everything in a part is in the flattening. */
  lemma {:induction false} FlattenIncludes<T>(xss: seq<seq<T>>, j: nat)
    requires j < |xss|
    ensures forall e :: e in xss[j] ==> e in Flatten(xss)
  {
    if j > 0 {
      FlattenIncludes(xss[1..], j - 1);
    }
  }

  /** The emissions of each buffer entry, entry by entry. */
  function EntryEmissions(buf: Buffer): seq<seq<Emission>> {
    seq(|buf|, j requires 0 <= j < |buf| => FieldEmissions(buf[j].0, buf[j].1))
  }

  /** The loop over the tegrastats buffer, in its insertion order. */
  function BufferEmissions(buf: Buffer): seq<Emission> {
    Flatten(EntryEmissions(buf))
  }

  /** The loop over the per-process usage: the process name is both the label
      and the `metric_set` key. */
  function ProcessEmissions(usage: ProcessMemory.Usage): seq<Emission> {
    seq(|usage|, i requires 0 <= i < |usage| =>
      Emission(StoreGpuEvent(Int(usage[i].1), usage[i].0, PerProcessMetric, None), PerProcessMetric))
  }

  function Emissions(buf: Buffer, usage: ProcessMemory.Usage): seq<Emission> {
    BufferEmissions(buf) + ProcessEmissions(usage)
  }

  function EventsOf(ems: seq<Emission>): seq<GpuEvent> {
    seq(|ems|, i requires 0 <= i < |ems| => ems[i].event)
  }

  /** The `metric_set` updates of a run of emissions, in order. */
  function RecordAll(ms: MetricSet, ems: seq<Emission>): MetricSet
    decreases |ems|
  {
    if |ems| == 0 then ms
    else RecordAll(Record(ms, ems[0].event.labelValue, ems[0].recorded), ems[1..])
  }

  /** `metric_set` only grows: afterwards it holds exactly the old pairs plus
      one (label, recorded name) pair per emission. */
  lemma {:induction false} RecordAllAdds(ms: MetricSet, ems: seq<Emission>)
    requires WellFormed(ms)
    ensures WellFormed(RecordAll(ms, ems))
    ensures forall k, n :: Recorded(RecordAll(ms, ems), k, n) <==>
      Recorded(ms, k, n) || exists j :: 0 <= j < |ems| && ems[j].event.labelValue == k && ems[j].recorded == n
    decreases |ems|
  {
    if |ems| > 0 {
      var ms' := Record(ms, ems[0].event.labelValue, ems[0].recorded);
      RecordAdds(ms, ems[0].event.labelValue, ems[0].recorded);
      RecordAllAdds(ms', ems[1..]);
      forall k, n
        ensures Recorded(RecordAll(ms, ems), k, n) <==>
          Recorded(ms, k, n) || exists j :: 0 <= j < |ems| && ems[j].event.labelValue == k && ems[j].recorded == n
      {
        if exists j :: 0 <= j < |ems[1..]| && ems[1..][j].event.labelValue == k && ems[1..][j].recorded == n {
          var j :| 0 <= j < |ems[1..]| && ems[1..][j].event.labelValue == k && ems[1..][j].recorded == n;
          assert ems[j + 1] == ems[1..][j];
        }
        if exists j :: 0 <= j < |ems| && ems[j].event.labelValue == k && ems[j].recorded == n {
          var j :| 0 <= j < |ems| && ems[j].event.labelValue == k && ems[j].recorded == n;
          if j > 0 {
            assert ems[1..][j - 1] == ems[j];
          }
        }
      }
    }
  }

  /** The result of `_produce_gpu_event`: the store events, in order, and the
      grown `metric_set`. */
  datatype Produced = Produced(events: seq<GpuEvent>, metrics: MetricSet)

  /** The buffer's stores come first; the per-process stores follow, one per
      process in the usage's order. */
  function Produce(buf: Buffer, usage: ProcessMemory.Usage, ms: MetricSet): (r: Produced)
    ensures |r.events| == |BufferEmissions(buf)| + |usage|
    ensures forall i :: 0 <= i < |usage| ==>
      r.events[|BufferEmissions(buf)| + i] == StoreGpuEvent(Int(usage[i].1), usage[i].0, PerProcessMetric, None)
  {
    var ems := Emissions(buf, usage);
    Produced(EventsOf(ems), RecordAll(ms, ems))
  }

  // ---------------------------------------------------------------------------
  // What the sink makes of the events

  /** Every name "tegrastats_gpu_freq_{i}" / "tegrastats_cpu_usage_{i}" is
      already lower case and is not in the help table, so the sink drops
      every store under it. */
  lemma IndexedNameUnrecognized(k: FieldKey, i: nat)
    requires IsListKey(k)
    ensures Lower(IndexedName(k, i)) == IndexedName(k, i)
    ensures !Recognized(Lower(IndexedName(k, i)))
  {
    IndexedNameNoUpper(k, i);
    LowerOfLower(IndexedName(k, i));
    IndexedNameLong(k, i);
    LongNameOutsideTable(IndexedName(k, i));
  }

  lemma IndexedNameNoUpper(k: FieldKey, i: nat)
    ensures NoUpper(IndexedName(k, i))
  {
    var m := MetricName(k);
    var d := NatToString(i);
    var n := IndexedName(k, i);
    MetricNameLower(k);
    forall j | 0 <= j < |n|
      ensures !IsUpper(n[j])
    {
      if j < |m| {
        assert n[j] == m[j];
      } else if j > |m| {
        assert n[j] == d[j - |m| - 1];
      }
    }
  }

  lemma IndexedNameLong(k: FieldKey, i: nat)
    requires IsListKey(k)
    ensures |IndexedName(k, i)| >= 21
    ensures IndexedName(k, i)[11] == (if k == Cpu then 'c' else 'g')
  {
    var m := MetricName(k);
    assert IndexedName(k, i)[11] == m[11];
  }

  /** The help table's only names of 21 or more characters are the encoder,
      decoder and per-process metrics. */
  lemma LongNameOutsideTable(n: string)
    requires |n| >= 21 && n[11] != 'n' && n[11] != 'p'
    ensures n !in HelpTable
  {
    forall key | key in HelpTable && |key| >= 21
      ensures key[11] == 'n' || key[11] == 'p'
    {
    }
  }

  /** The name a (field key, value) pair is recorded under: the metric itself
      for a scalar key, an indexed name for a list key, or the per-process
      metric. */
  ghost predicate RecordableName(n: string) {
    || (exists k :: !IsListKey(k) && n == MetricName(k))
    || (exists k, i :: IsListKey(k) && n == IndexedName(k, i))
    || n == PerProcessMetric
  }

  /** Every name recorded in `metric_set` is one dispatch records. */
  ghost predicate Recordable(ms: MetricSet) {
    forall key, n :: Recorded(ms, key, n) ==> RecordableName(n)
  }

  /** An emission of the buffer comes from one of its entries. */
  lemma BufferEmissionSource(buf: Buffer, e: Emission) returns (j: nat)
    requires e in BufferEmissions(buf)
    ensures j < |buf| && e in FieldEmissions(buf[j].0, buf[j].1)
  {
    j := FlattenSource(EntryEmissions(buf), e);
  }

  lemma FieldEmissionsIncluded(buf: Buffer, j: nat)
    requires j < |buf|
    ensures forall e :: e in FieldEmissions(buf[j].0, buf[j].1) ==> e in BufferEmissions(buf)
  {
    FlattenIncludes(EntryEmissions(buf), j);
  }


  /** `e` stores an entry of the list field `k`. */
  ghost predicate IndexedStore(k: FieldKey, e: Emission) {
    && IsListKey(k)
    && e.event.index.Some?
    && e.event.key == MetricName(k)
    && e.event.labelValue == KeyName(k)
    && e.recorded == IndexedName(k, e.event.index.value)
  }

  /** Every event dispatch produces names a metric of the help table, under
      the name recorded for it; list entries carry their index, other events
      none. */
  lemma EmissionShape(buf: Buffer, usage: ProcessMemory.Usage, e: Emission)
    requires e in Emissions(buf, usage)
    ensures Recognized(Lower(e.event.key))
    ensures RecordableName(e.recorded)
    ensures e.event.index.None? ==> e.recorded == e.event.key
    ensures e.event.index.Some? ==> exists k :: IndexedStore(k, e)
  {
    if e in BufferEmissions(buf) {
      var j := BufferEmissionSource(buf, e);
      FieldEmissionShape(buf[j].0, buf[j].1, e);
    } else {
      var i :| 0 <= i < |usage| && e == ProcessEmissions(usage)[i];
      PerProcessRecognized();
    }
  }

  lemma FieldEmissionShape(k: FieldKey, v: FieldValue, e: Emission)
    requires e in FieldEmissions(k, v)
    ensures Recognized(Lower(e.event.key))
    ensures RecordableName(e.recorded)
    ensures e.event.index.None? ==> e.recorded == e.event.key
    ensures e.event.index.Some? ==> IndexedStore(k, e)
  {
    MetricNameRecognized(k);
    if IsListKey(k) {
      IndexedEmissionsSound(k, Elements(v), 0);
      assert FromEntry(k, Elements(v), 0, e);
      assert IndexedStore(k, e);
      assert e.recorded == IndexedName(k, e.event.index.value);
    } else {
      assert e.recorded == MetricName(k);
    }
  }

  /** The sink accepts every event dispatch produces. */
  lemma ProducedRecognized(buf: Buffer, usage: ProcessMemory.Usage, ms: MetricSet)
    ensures forall e :: e in Produce(buf, usage, ms).events ==> Recognized(Lower(e.key))
  {
    var ems := Emissions(buf, usage);
    forall e | e in Produce(buf, usage, ms).events
      ensures Recognized(Lower(e.key))
    {
      var i :| 0 <= i < |ems| && e == EventsOf(ems)[i];
      EmissionShape(buf, usage, ems[i]);
    }
  }

  /** Dispatch grows `metric_set` by exactly the (label, recorded name) pair of
      each event, keeps it well formed, and records only recordable names. */
  lemma ProduceRecords(buf: Buffer, usage: ProcessMemory.Usage, ms: MetricSet)
    requires WellFormed(ms)
    requires Recordable(ms)
    ensures var ems := Emissions(buf, usage);
      var r := Produce(buf, usage, ms).metrics;
      && WellFormed(r)
      && Recordable(r)
      && forall k, n :: Recorded(r, k, n) <==>
        Recorded(ms, k, n) || exists j :: 0 <= j < |ems| && ems[j].event.labelValue == k && ems[j].recorded == n
  {
    var ems := Emissions(buf, usage);
    RecordAllAdds(ms, ems);
    forall j | 0 <= j < |ems|
      ensures RecordableName(ems[j].recorded)
    {
      EmissionShape(buf, usage, ems[j]);
    }
  }

  /** A CPU entry "off" yields no store for its core and no `metric_set`
      name; every other CPU entry, and every GPU_FREQ entry, is stored under
      its position in the full list. */
  lemma CpuOffSkipped(buf: Buffer, usage: ProcessMemory.Usage, j: nat, i: nat)
    requires OrderedMap.DistinctKeys(buf)
    requires j < |buf| && buf[j].0 == Cpu && buf[j].1.Items?
    requires i < |buf[j].1.texts| && buf[j].1.texts[i] == "off"
    ensures forall e :: e in Emissions(buf, usage) ==>
      !(e.event.key == MetricName(Cpu) && e.event.index == Some(i))
    ensures forall e :: e in Emissions(buf, usage) ==> e.recorded != IndexedName(Cpu, i)
  {
    forall e | e in Emissions(buf, usage)
      ensures !(e.event.key == MetricName(Cpu) && e.event.index == Some(i))
      ensures e.recorded != IndexedName(Cpu, i)
    {
      NotOffEmission(buf, usage, j, i, e);
    }
  }

  lemma NotOffEmission(buf: Buffer, usage: ProcessMemory.Usage, j: nat, i: nat, e: Emission)
    requires OrderedMap.DistinctKeys(buf)
    requires j < |buf| && buf[j].0 == Cpu && buf[j].1.Items?
    requires i < |buf[j].1.texts| && buf[j].1.texts[i] == "off"
    requires e in Emissions(buf, usage)
    ensures !(e.event.key == MetricName(Cpu) && e.event.index == Some(i))
    ensures e.recorded != IndexedName(Cpu, i)
  {
    IndexedNameUnrecognized(Cpu, i);
    if e.event.index.None? {
      EmissionShape(buf, usage, e);
    } else {
      var x := e.event.index.value;
      var j' := IndexedSource(buf, usage, e);
      var k := buf[j'].0;
      if k == Cpu {
        assert j' == j;
        NatToStringInjective(x, i);
      } else {
        IndexedNameLong(k, x);
        IndexedNameLong(Cpu, i);
      }
    }
  }

  /** An indexed event comes from an entry of a list field. */
  lemma IndexedSource(buf: Buffer, usage: ProcessMemory.Usage, e: Emission) returns (j: nat)
    requires e in Emissions(buf, usage)
    requires e.event.index.Some?
    ensures j < |buf| && IsListKey(buf[j].0)
    ensures FromEntry(buf[j].0, Elements(buf[j].1), 0, e)
  {
    if e in BufferEmissions(buf) {
      j := BufferEmissionSource(buf, e);
      IndexedEmissionsSound(buf[j].0, Elements(buf[j].1), 0);
    } else {
      assert false;
    }
  }

  /** Distinct indices have distinct decimal names. */
  lemma NatToStringInjective(a: nat, b: nat)
    ensures MetricName(Cpu) + "_" + NatToString(a) == MetricName(Cpu) + "_" + NatToString(b) ==> a == b
  {
    var p := MetricName(Cpu) + "_";
    if p + NatToString(a) == p + NatToString(b) {
      assert NatToString(a) == (p + NatToString(a))[|p|..];
      assert NatToString(b) == (p + NatToString(b))[|p|..];
      ParseNatToString(a);
      ParseNatToString(b);
    }
  }

  /** Each stored entry of a list field is emitted with its position. */
  lemma ListEntryEmitted(buf: Buffer, usage: ProcessMemory.Usage, j: nat, i: nat)
    requires j < |buf| && IsListKey(buf[j].0) && buf[j].1.Items?
    requires i < |buf[j].1.texts| && Emits(buf[j].0, buf[j].1.texts[i])
    ensures IndexedEmission(buf[j].0, buf[j].1.texts[i], i) in Emissions(buf, usage)
  {
    ListEntryInField(buf[j].0, buf[j].1, i);
    FieldEmissionsIncluded(buf, j);
  }

  lemma ListEntryInField(k: FieldKey, v: FieldValue, i: nat)
    requires IsListKey(k) && v.Items?
    requires i < |v.texts| && Emits(k, v.texts[i])
    ensures IndexedEmission(k, v.texts[i], i) in FieldEmissions(k, v)
  {
    var xs := v.texts;
    assert FieldEmissions(k, v) == IndexedEmissions(k, xs, 0);
    IndexedEmissionsComplete(k, xs, 0);
    assert IndexedEmission(k, xs[i], 0 + i) in IndexedEmissions(k, xs, 0);
  }

  /** Each scalar field is emitted exactly once, under its metric, labelled
      with its key, with no index. */
  lemma ScalarEntryEmitted(buf: Buffer, usage: ProcessMemory.Usage, j: nat)
    requires OrderedMap.DistinctKeys(buf)
    requires j < |buf| && !IsListKey(buf[j].0)
    ensures multiset(Emissions(buf, usage))[ScalarEmission(buf[j].0, buf[j].1)] == 1
  {
    var em := ScalarEmission(buf[j].0, buf[j].1);
    ScalarCount(buf, j);
    ScalarNotPerProcess(buf[j].0);
    assert em !in ProcessEmissions(usage);
  }

  /** Every index-free store of the buffer is the store of one of its scalar
      entries. */
  lemma ScalarEmissionSound(buf: Buffer, e: Emission)
    requires e in BufferEmissions(buf) && e.event.index.None?
    ensures exists j :: 0 <= j < |buf| && !IsListKey(buf[j].0) && e == ScalarEmission(buf[j].0, buf[j].1)
  {
    var j := BufferEmissionSource(buf, e);
    FieldEmissionUnindexed(buf[j].0, buf[j].1, e);
  }

  /** An index-free emission of an entry is its scalar store. */
  lemma FieldEmissionUnindexed(k: FieldKey, v: FieldValue, e: Emission)
    requires e in FieldEmissions(k, v) && e.event.index.None?
    ensures !IsListKey(k) && e == ScalarEmission(k, v)
  {
    if IsListKey(k) {
      IndexedEmissionsSound(k, Elements(v), 0);
      assert false;
    }
  }

  /** Every emission of an entry is labelled with the entry's key. */
  lemma FieldEmissionLabel(k: FieldKey, v: FieldValue, e: Emission)
    requires e in FieldEmissions(k, v)
    ensures e.event.labelValue == KeyName(k)
  {
    if IsListKey(k) {
      IndexedEmissionsSound(k, Elements(v), 0);
      assert FromEntry(k, Elements(v), 0, e);
    }
  }

  /** A buffer without key `k` emits nothing labelled with it. */
  lemma LabelAbsent(buf: Buffer, k: FieldKey)
    requires forall i :: 0 <= i < |buf| ==> buf[i].0 != k
    ensures forall e :: e in BufferEmissions(buf) ==> e.event.labelValue != KeyName(k)
  {
    forall e | e in BufferEmissions(buf)
      ensures e.event.labelValue != KeyName(k)
    {
      var j := BufferEmissionSource(buf, e);
      FieldEmissionLabel(buf[j].0, buf[j].1, e);
      KeyOfKeyName(buf[j].0);
      KeyOfKeyName(k);
    }
  }

  lemma BufferEmissionsCons(buf: Buffer)
    requires |buf| > 0
    ensures BufferEmissions(buf) == FieldEmissions(buf[0].0, buf[0].1) + BufferEmissions(buf[1..])
  {
    assert EntryEmissions(buf)[1..] == EntryEmissions(buf[1..]);
  }

  /** With distinct keys, a scalar entry's store occurs once in the buffer's
      emissions. */
  lemma {:induction false} ScalarCount(buf: Buffer, j: nat)
    requires OrderedMap.DistinctKeys(buf)
    requires j < |buf| && !IsListKey(buf[j].0)
    ensures multiset(BufferEmissions(buf))[ScalarEmission(buf[j].0, buf[j].1)] == 1
  {
    if j == 0 {
      ScalarCountHead(buf);
    } else {
      var em := ScalarEmission(buf[j].0, buf[j].1);
      BufferEmissionsCons(buf);
      OtherFieldLacks(buf[0].0, buf[0].1, buf[j].0, em);
      assert buf[1..][j - 1] == buf[j];
      ScalarCount(buf[1..], j - 1);
    }
  }

  lemma ScalarCountHead(buf: Buffer)
    requires OrderedMap.DistinctKeys(buf)
    requires |buf| > 0 && !IsListKey(buf[0].0)
    ensures multiset(BufferEmissions(buf))[ScalarEmission(buf[0].0, buf[0].1)] == 1
  {
    var em := ScalarEmission(buf[0].0, buf[0].1);
    BufferEmissionsCons(buf);
    assert FieldEmissions(buf[0].0, buf[0].1) == [em];
    LabelAbsent(buf[1..], buf[0].0);
    assert em !in BufferEmissions(buf[1..]);
  }

  /** An entry emits nothing labelled with another key. */
  lemma OtherFieldLacks(k: FieldKey, v: FieldValue, k': FieldKey, e: Emission)
    requires k != k' && e.event.labelValue == KeyName(k')
    ensures e !in FieldEmissions(k, v)
  {
    KeyOfKeyName(k);
    KeyOfKeyName(k');
    if e in FieldEmissions(k, v) {
      FieldEmissionLabel(k, v, e);
      assert false;
    }
  }

  /** No field key's metric is the per-process metric. */
  lemma ScalarNotPerProcess(k: FieldKey)
    ensures MetricName(k) != PerProcessMetric
  {
    assert |MetricName(k)| < |PerProcessMetric|;
  }

  /** `store_gpu_event` swaps roles: the series is named by `metric_key`
      lower-cased and labelled with `metric_name`, and a missing index is
      the same as index "0". */
  lemma StoreGpuEventSeries(v: Value, metricName: string, metricKey: string, index: Option<nat>)
    ensures SeriesOf(ToMsg(StoreGpuEvent(v, metricName, metricKey, index))) ==
      SeriesId(Lower(metricKey), metricName, if index.None? then "0" else NatToString(index.value))
  {
  }

  /** Each process is emitted under the per-process metric, labelled with its
      name: process names share the `metric_set` keys with field keys. */
  lemma ProcessEmitted(buf: Buffer, usage: ProcessMemory.Usage, i: nat)
    requires i < |usage|
    ensures Emission(StoreGpuEvent(Int(usage[i].1), usage[i].0, PerProcessMetric, None), PerProcessMetric) in Emissions(buf, usage)
  {
    assert ProcessEmissions(usage)[i] in ProcessEmissions(usage);
  }

  // ---------------------------------------------------------------------------
  // What zeroing does to the sink

  /** Zeroing sets the series of every recorded recognized pair, the one
      dispatch wrote with no index, to 0.0. */
  lemma NullifyZeroes(ms: MetricSet, sink: Sink, parse: string -> Option<real>, key: string, name: string)
    requires WellFormed(ms)
    requires Recorded(ms, key, name)
    requires Recognized(Lower(name))
    ensures var r := StoreAll(sink, ToMsgs(Nullify(ms)), parse);
      var id := SeriesId(Lower(name), key, "0");
      id in r.series && r.series[id] == 0.0
  {
    var msgs := ToMsgs(Nullify(ms));
    var k := ZeroMsgFor(ms, key, name);
    ZeroMsgs(ms, parse);
    StoreAllSetsSeries(sink, msgs, parse, SeriesId(Lower(name), key, "0"), 0.0);
  }

  /** The zeroing message of a recorded pair addresses its index-free series. */
  lemma ZeroMsgFor(ms: MetricSet, key: string, name: string) returns (k: nat)
    requires WellFormed(ms)
    requires Recorded(ms, key, name)
    ensures k < |ToMsgs(Nullify(ms))| && SeriesOf(ToMsgs(Nullify(ms))[k]) == SeriesId(Lower(name), key, "0")
  {
    var es := Nullify(ms);
    NullifyCoversRecorded(ms, key, name);
    k :| 0 <= k < |es| && es[k] == ZeroEvent(key, name);
  }

  /** Every zeroing message converts to 0.0. */
  lemma ZeroMsgs(ms: MetricSet, parse: string -> Option<real>)
    ensures var msgs := ToMsgs(Nullify(ms));
      forall k :: 0 <= k < |msgs| ==> ToFloat(msgs[k].value, parse) == Some(0.0)
  {
    var es := Nullify(ms);
    forall k | 0 <= k < |es|
      ensures ToFloat(ToMsgs(es)[k].value, parse) == Some(0.0)
    {
      assert es[k] in es;
    }
  }

  /** A series of the per-core or per-cluster gauges. */
  predicate IndexedSeries(id: SeriesId) {
    id.name == MetricName(Cpu) || id.name == MetricName(GpuFreq)
  }

  /** No recordable name lower-cases to a per-core or per-cluster gauge. */
  lemma RecordableNotIndexedGauge(n: string)
    requires RecordableName(n)
    ensures Lower(n) != MetricName(Cpu) && Lower(n) != MetricName(GpuFreq)
  {
    if exists k :: !IsListKey(k) && n == MetricName(k) {
      var k :| !IsListKey(k) && n == MetricName(k);
      ScalarMetricNotIndexed(k);
    } else if exists k, i :: IsListKey(k) && n == IndexedName(k, i) {
      var k, i :| IsListKey(k) && n == IndexedName(k, i);
      IndexedNameNotGauge(k, i);
    } else {
      PerProcessRecognized();
    }
  }

  lemma IndexedNameNotGauge(k: FieldKey, i: nat)
    requires IsListKey(k)
    ensures Lower(IndexedName(k, i)) != MetricName(Cpu) && Lower(IndexedName(k, i)) != MetricName(GpuFreq)
  {
    IndexedNameLong(k, i);
    assert |Lower(IndexedName(k, i))| >= 21;
  }

  lemma ScalarMetricNotIndexed(k: FieldKey)
    requires !IsListKey(k)
    ensures Lower(MetricName(k)) != MetricName(Cpu) && Lower(MetricName(k)) != MetricName(GpuFreq)
  {
    MetricNameLower(k);
    assert MetricName(k)[11] != MetricName(Cpu)[11] || MetricName(k)[15] != MetricName(Cpu)[15];
    assert MetricName(k)[11] != MetricName(GpuFreq)[11] || MetricName(k)[15] != MetricName(GpuFreq)[15];
  }

  /** Zeroing never reaches a per-core or per-cluster series: the names it
      replays for them are dropped by the sink, so those series keep their
      last value. */
  lemma NullifyKeepsIndexedSeries(ms: MetricSet, sink: Sink, parse: string -> Option<real>, id: SeriesId)
    requires WellFormed(ms) && Recordable(ms)
    requires IndexedSeries(id) && id in sink.series
    ensures var r := StoreAll(sink, ToMsgs(Nullify(ms)), parse);
      id in r.series && r.series[id] == sink.series[id]
  {
    var es := Nullify(ms);
    var msgs := ToMsgs(es);
    forall k | 0 <= k < |msgs|
      ensures SeriesOf(msgs[k]) != id
    {
      var e := es[k];
      assert e in es;
      NullifyCoversRecorded(ms, e.labelValue, e.key);
      RecordableNotIndexedGauge(e.key);
    }
  }

  /** With GPU utilization and CPU temperature recorded, zeroing issues
      exactly the two stores of 0.0 for them. */
  lemma NullifyExample()
    ensures Nullify([("GPU_UTIL", ["tegrastats_gpu_util"]), ("CPU_TEMP", ["tegrastats_cpu_temp"])]) ==
      [ GpuEvent("tegrastats_gpu_util", Float(0.0), "GPU_UTIL", None)
      , GpuEvent("tegrastats_cpu_temp", Float(0.0), "CPU_TEMP", None) ]
  {
    var ms: MetricSet := [("GPU_UTIL", ["tegrastats_gpu_util"]), ("CPU_TEMP", ["tegrastats_cpu_temp"])];
    assert ms[1..][1..] == [];
  }
}
