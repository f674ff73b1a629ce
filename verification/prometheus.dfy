/** The scrape-based sink (`DataBaseProm.store`): a message's key, lower-cased,
    names a gauge from a fixed help-text table; the gauge is registered once,
    and the child series picked by the `label` and `index` label values is set
    to the message's value converted to a float. The Prometheus client library
    itself is replaced by two maps. */
module Prometheus {
  import opened Options
  import Text
  import Decimal

  /** What a store message carries as its value: a Python `str`, `int` or
      `float`, or a `list` of strings (which `float()` rejects). */
  datatype Value = Str(s: string) | Int(n: int) | Float(x: real) | StrList(items: seq<string>)

  /** Python `float(value)`. Converting a string is left abstract as `parse`;
      an int or a float converts without fail, and a list raises `TypeError`. */
  function ToFloat(v: Value, parse: string -> Option<real>): (r: Option<real>)
    ensures v.Str? ==> r == parse(v.s)
    ensures v.Int? ==> r == Some(v.n as real)
    ensures v.Float? ==> r == Some(v.x)
    ensures v.StrList? ==> r.None?
  {
    match v
    case Str(s) => parse(s)
    case Int(n) => Some(n as real)
    case Float(x) => Some(x)
    case StrList(_) => None
  }

  /** The message dictionary `store` receives; `label` and `index` may be absent. */
  datatype Msg = Msg(key: string, value: Value, labelValue: Option<string>, index: Option<nat>)

  /** The help text of every metric the sink knows; any other name is dropped. */
  const HelpTable: map<string, string> := map[
    "tegrastats_gpu_util" := "GPU Utilization (%)",
    "tegrastats_gpu_freq" := "GPU Frequency (Hz)",
    "tegrastats_gpu_temp" := "GPU Temperature (\U{00B0}C)",
    "tegrastats_cpu_temp" := "CPU Temperature (\U{00B0}C)",
    "tegrastats_cpu_usage" := "CPU Core Utilization (%)",
    "tegrastats_ram_usage" := "RAM Usage (MB)",
    "tegrastats_emc_util" := "EMC Memory BW Utilization (%)",
    "tegrastats_emc_freq" := "EMC Frequency (Hz)",
    "tegrastats_nvenc_freq" := "NVENC Frequency (Hz)",
    "tegrastats_nvenc1_freq" := "NVENC1 Frequency (Hz)",
    "tegrastats_nvdec_freq" := "NVDEC Frequency (Hz)",
    "tegrastats_nvdec1_freq" := "NVDEC1 Frequency (Hz)",
    "tegrastats_per_process_gpu_mem" := "Per-process GPU Memory (KB)"
  ]

  predicate Recognized(name: string) {
    name in HelpTable
  }

  /** One exposed time series: gauge name plus the `label` and `index` label
      values, both as strings (the client library renders label values with
      `str`). */
  datatype SeriesId = SeriesId(name: string, labelValue: string, index: string)

  /** Registered gauges (name to help text) and the current value of every
      child series. */
  datatype Sink = Sink(gauges: map<string, string>, series: map<SeriesId, real>)

  const EmptySink: Sink := Sink(map[], map[])

  /** Every gauge carries its table help text, and every series belongs to a
      registered gauge. */
  ghost predicate Consistent(sink: Sink) {
    && (forall n :: n in sink.gauges ==> n in HelpTable && sink.gauges[n] == HelpTable[n])
    && (forall id :: id in sink.series ==> id.name in sink.gauges)
  }

  /** The series a message addresses: the lower-cased key, with label and
      index defaulting to "none" and "0"; an index is rendered as its
      canonical decimal (`str`), which reads back as the index. */
  function SeriesOf(msg: Msg): (id: SeriesId)
    ensures id.name == Text.Lower(msg.key)
    ensures msg.labelValue.None? ==> id.labelValue == "none"
    ensures msg.labelValue.Some? ==> id.labelValue == msg.labelValue.value
    ensures msg.index.None? ==> id.index == "0"
    ensures msg.index.Some? ==> id.index == Decimal.NatToString(msg.index.value)
    ensures msg.index.Some? ==> Decimal.ParseNat(id.index) == Some(msg.index.value)
  {
    var index := match msg.index
      case None => "0"
      case Some(i) => (Decimal.ParseNatToString(i); Decimal.NatToString(i));
    SeriesId(Text.Lower(msg.key), msg.labelValue.GetOr("none"), index)
  }

  /** Index 0 and a missing index address the same series, and distinct
      indices address distinct series. */
  lemma SeriesOfIndex(msg: Msg, i: nat, j: nat)
    ensures SeriesOf(msg.(index := Some(0))) == SeriesOf(msg.(index := None))
    ensures SeriesOf(msg.(index := Some(i))) == SeriesOf(msg.(index := Some(j))) <==> i == j
  {
    assert Decimal.NatToString(0) == "0";
    Decimal.ParseNatToString(i);
    Decimal.ParseNatToString(j);
  }

  /** `DataBaseProm.store`. A new recognized name registers its gauge; the
      addressed child series is created at 0.0 if absent (as the client
      library's `labels()` does) and then set, unless `float()` fails, in which
      case it keeps its value. */
  function Store(sink: Sink, msg: Msg, parse: string -> Option<real>): (r: Sink)
    ensures sink.gauges.Keys <= r.gauges.Keys
    ensures forall n :: n in sink.gauges ==> r.gauges[n] == sink.gauges[n]
    ensures r.series.Keys <= sink.series.Keys + {SeriesOf(msg)}
    ensures forall id :: id in sink.series && id != SeriesOf(msg) ==>
      id in r.series && r.series[id] == sink.series[id]
    ensures Consistent(sink) ==> Consistent(r)
  {
    var name := Text.Lower(msg.key);
    if name !in sink.gauges && name !in HelpTable then sink
    else
      var gauges := if name in sink.gauges then sink.gauges else sink.gauges[name := HelpTable[name]];
      var id := SeriesOf(msg);
      var child := if id in sink.series then sink.series[id] else 0.0;
      Sink(gauges, sink.series[id := ToFloat(msg.value, parse).GetOr(child)])
  }

  /** A name outside the help table is dropped: nothing is registered and no
      series changes. */
  lemma StoreUnrecognized(sink: Sink, msg: Msg, parse: string -> Option<real>)
    requires Consistent(sink)
    requires !Recognized(Text.Lower(msg.key))
    ensures Store(sink, msg, parse) == sink
  {
  }

  /** A recognized name ends up registered with its help text, and its series
      exists and holds the converted value. */
  lemma StoreRecognized(sink: Sink, msg: Msg, parse: string -> Option<real>, x: real)
    requires Recognized(Text.Lower(msg.key))
    requires Consistent(sink)
    requires ToFloat(msg.value, parse) == Some(x)
    ensures var r := Store(sink, msg, parse);
      && Text.Lower(msg.key) in r.gauges
      && r.gauges[Text.Lower(msg.key)] == HelpTable[Text.Lower(msg.key)]
      && SeriesOf(msg) in r.series && r.series[SeriesOf(msg)] == x
  {
  }

  /** A value `float()` rejects leaves an existing series' value as it was. */
  lemma StoreInvalidValue(sink: Sink, msg: Msg, parse: string -> Option<real>)
    requires Consistent(sink)
    requires ToFloat(msg.value, parse).None?
    requires SeriesOf(msg) in sink.series
    ensures Store(sink, msg, parse) == sink
  {
    var id := SeriesOf(msg);
    assert sink.series[id := sink.series[id]] == sink.series;
  }

  /** A gauge is registered at most once: storing under a name already
      registered leaves the gauge map as it is. */
  lemma StoreRegistersOnce(sink: Sink, msg: Msg, parse: string -> Option<real>)
    requires Text.Lower(msg.key) in sink.gauges
    ensures Store(sink, msg, parse).gauges == sink.gauges
  {
  }

  /** A sequence of `store` calls, in order. */
  function StoreAll(sink: Sink, msgs: seq<Msg>, parse: string -> Option<real>): (r: Sink)
    ensures sink.gauges.Keys <= r.gauges.Keys
    ensures forall n :: n in sink.gauges ==> r.gauges[n] == sink.gauges[n]
    ensures forall id :: id in sink.series && (forall k :: 0 <= k < |msgs| ==> SeriesOf(msgs[k]) != id) ==>
      id in r.series && r.series[id] == sink.series[id]
    ensures Consistent(sink) ==> Consistent(r)
    decreases |msgs|
  {
    if |msgs| == 0 then sink
    else StoreAll(Store(sink, msgs[0], parse), msgs[1..], parse)
  }

  /** After a run of stores, a recognized series that some message addresses
      holds the value the messages addressing it carry. */
  lemma {:induction false} StoreAllSetsSeries(sink: Sink, msgs: seq<Msg>, parse: string -> Option<real>, id: SeriesId, x: real)
    requires Recognized(id.name)
    requires exists k :: 0 <= k < |msgs| && SeriesOf(msgs[k]) == id
    requires forall k :: 0 <= k < |msgs| && SeriesOf(msgs[k]) == id ==> ToFloat(msgs[k].value, parse) == Some(x)
    ensures id in StoreAll(sink, msgs, parse).series
    ensures StoreAll(sink, msgs, parse).series[id] == x
    decreases |msgs|
  {
    var next := Store(sink, msgs[0], parse);
    assert StoreAll(sink, msgs, parse) == StoreAll(next, msgs[1..], parse);
    if exists k :: 0 <= k < |msgs[1..]| && SeriesOf(msgs[1..][k]) == id {
      forall k | 0 <= k < |msgs[1..]| && SeriesOf(msgs[1..][k]) == id
        ensures ToFloat(msgs[1..][k].value, parse) == Some(x)
      {
        assert msgs[1..][k] == msgs[k + 1];
      }
      StoreAllSetsSeries(next, msgs[1..], parse, id, x);
    } else {
      assert SeriesOf(msgs[0]) == id;
      StoreSetsSeries(sink, msgs[0], parse, x);
    }
  }

  /** A store under a recognized name sets the addressed series to the
      converted value. */
  lemma StoreSetsSeries(sink: Sink, msg: Msg, parse: string -> Option<real>, x: real)
    requires Recognized(Text.Lower(msg.key))
    requires ToFloat(msg.value, parse) == Some(x)
    ensures SeriesOf(msg) in Store(sink, msg, parse).series
    ensures Store(sink, msg, parse).series[SeriesOf(msg)] == x
  {
  }
}
