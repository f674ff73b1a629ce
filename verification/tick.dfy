/** One pass of the sampling loop (`_process_gpu_stats_forever`): collect
    and parse the tegrastats line, collect and parse the per-process usage,
    dispatch. The first stage that raises skips the rest and zeroing runs
    instead. The two collections are inputs: `None` stands for the subprocess
    call raising, `Some(out)` for its decoded output. */
module Tick {
  import opened Options
  import Text
  import opened Prometheus
  import Tegrastats
  import ProcessMemory
  import opened Dispatch

  /** What survives between passes: `metric_set` and the sink. */
  datatype State = State(metrics: MetricSet, sink: Sink)

  /** The state before the first pass. */
  const Initial: State := State([], EmptySink)

  /** The stages of a pass, in the order they run. */
  datatype Stage = CollectStats | ParseStats | CollectUsage | ParseUsage | ProduceEvents | ZeroEvents

  /** Whether the pass completed, the stages it ran, the store events it
      issued (in order) and the state it leaves. */
  datatype Outcome = Outcome(ok: bool, trace: seq<Stage>, events: seq<GpuEvent>, state: State)

  const FullTrace: seq<Stage> := [CollectStats, ParseStats, CollectUsage, ParseUsage, ProduceEvents]

  /** The exception handler: zeroing replays `metric_set`, which it leaves
      as it is. */
  function Abort(s: State, ran: seq<Stage>, parse: string -> Option<real>): Outcome {
    var events := Nullify(s.metrics);
    Outcome(false, ran + [ZeroEvents], events, State(s.metrics, StoreAll(s.sink, ToMsgs(events), parse)))
  }

  /** The tegrastats stages: the stripped output split on " " and parsed. */
  function StatsOf(tegraOut: Option<string>): Option<Tegrastats.Buffer> {
    match tegraOut
    case None => None
    case Some(out) => Tegrastats.ParseLine(Text.Strip(out))
  }

  /** The per-process stages: the stripped output parsed line by line. */
  function UsageOf(procOut: Option<string>): Option<ProcessMemory.Usage> {
    match procOut
    case None => None
    case Some(out) => ProcessMemory.ParseProcesses(Text.Strip(out))
  }

  /** How the `try` block's collection and parse stages end: raised after
      running `ran`, or with both parses in hand. */
  datatype Attempt = Raised(ran: seq<Stage>) | Parsed(stats: Tegrastats.Buffer, usage: ProcessMemory.Usage)

  /** The collection and parse stages, in order, stopping at the first that
      raises. */
  function Collect(tegraOut: Option<string>, procOut: Option<string>): (a: Attempt)
    ensures a.Parsed? <==> StatsOf(tegraOut).Some? && UsageOf(procOut).Some?
    ensures a.Parsed? ==> a.stats == StatsOf(tegraOut).value && a.usage == UsageOf(procOut).value
  {
    if tegraOut.None? then Raised(FullTrace[..1])
    else if StatsOf(tegraOut).None? then Raised(FullTrace[..2])
    else if procOut.None? then Raised(FullTrace[..3])
    else if UsageOf(procOut).None? then Raised(FullTrace[..4])
    else Parsed(StatsOf(tegraOut).value, UsageOf(procOut).value)
  }

  /** One pass. Either every stage succeeds and exactly the dispatch stores
      are issued, or the pass stops at the first failing stage, makes no
      dispatch store and zeroes instead, leaving `metric_set` as it was. */
  function Tick(s: State, tegraOut: Option<string>, procOut: Option<string>, parse: string -> Option<real>): (r: Outcome)
    ensures r.ok <==> StatsOf(tegraOut).Some? && UsageOf(procOut).Some?
    ensures r.ok ==> r.trace == FullTrace
    ensures r.ok ==> r.events == Produce(StatsOf(tegraOut).value, UsageOf(procOut).value, s.metrics).events
    ensures !r.ok ==> r.trace == Collect(tegraOut, procOut).ran + [ZeroEvents]
    ensures !r.ok ==> r.events == Nullify(s.metrics) && r.state.metrics == s.metrics
  {
    match Collect(tegraOut, procOut)
    case Raised(ran) => Abort(s, ran, parse)
    case Parsed(stats, usage) =>
      var p := Produce(stats, usage, s.metrics);
      Outcome(true, FullTrace, p.events, State(p.metrics, StoreAll(s.sink, ToMsgs(p.events), parse)))
  }

  /** The stages run before a raise are a non-empty prefix of the pass that
      stops short of dispatch, and include per-process collection exactly
      when the tegrastats stages succeeded. */
  lemma CollectShape(tegraOut: Option<string>, procOut: Option<string>)
    ensures var a := Collect(tegraOut, procOut);
      a.Raised? ==>
        && 1 <= |a.ran| <= 4 && a.ran == FullTrace[..|a.ran|]
        && (CollectUsage in a.ran <==> StatsOf(tegraOut).Some?)
  {
    var n := if tegraOut.None? then 1 else if StatsOf(tegraOut).None? then 2
      else if procOut.None? then 3 else 4;
    if Collect(tegraOut, procOut).Raised? {
      assert Collect(tegraOut, procOut).ran == FullTrace[..n];
      PrefixHasUsage(n);
    }
  }

  /** A prefix of the pass reaches per-process collection once it is three
      stages long. */
  lemma PrefixHasUsage(n: nat)
    requires 1 <= n <= 4
    ensures |FullTrace[..n]| == n
    ensures CollectUsage in FullTrace[..n] <==> n >= 3
  {
    assert FullTrace[2] == CollectUsage;
    if n < 3 {
      assert forall i :: 0 <= i < n ==> FullTrace[..n][i] != CollectUsage;
    } else {
      assert FullTrace[..n][2] == CollectUsage;
    }
  }

  /** Zeroing appended to a prefix of the pass keeps the prefix's stages. */
  lemma RaisedTrace(ran: seq<Stage>)
    requires 1 <= |ran| <= 4 && ran == FullTrace[..|ran|]
    ensures var t := ran + [ZeroEvents];
      && 2 <= |t| <= 5 && t == FullTrace[..|t| - 1] + [ZeroEvents]
      && (CollectUsage in t <==> CollectUsage in ran)
  {
  }

  /** The invariant a pass keeps: `metric_set` well formed and holding only
      names dispatch records, and the sink consistent with its help table. */
  ghost predicate Good(s: State) {
    WellFormed(s.metrics) && Recordable(s.metrics) && Consistent(s.sink)
  }

  lemma InitialGood()
    ensures Good(Initial)
  {
  }

  /** A pass keeps the invariant, and `metric_set` only ever gains pairs. */
  lemma TickKeepsGood(s: State, tegraOut: Option<string>, procOut: Option<string>, parse: string -> Option<real>)
    ensures Good(s) ==> Good(Tick(s, tegraOut, procOut, parse).state)
    ensures Good(s) ==> forall k, n :: Recorded(s.metrics, k, n) ==> Recorded(Tick(s, tegraOut, procOut, parse).state.metrics, k, n)
  {
    var r := Tick(s, tegraOut, procOut, parse);
    if Good(s) && r.ok {
      ProduceRecords(StatsOf(tegraOut).value, UsageOf(procOut).value, s.metrics);
    }
  }

  /** When the tegrastats stages fail, per-process collection is never
      attempted: the pass does not depend on its output. */
  lemma StatsFailureSkipsUsage(s: State, tegraOut: Option<string>, p1: Option<string>, p2: Option<string>, parse: string -> Option<real>)
    requires StatsOf(tegraOut).None?
    ensures CollectUsage !in Tick(s, tegraOut, p1, parse).trace
    ensures Tick(s, tegraOut, p1, parse) == Tick(s, tegraOut, p2, parse)
  {
    CollectShape(tegraOut, p1);
    RaisedTrace(Collect(tegraOut, p1).ran);
  }

  /** A successful pass makes only stores the sink accepts. */
  lemma TickStoresRecognized(s: State, tegraOut: Option<string>, procOut: Option<string>, parse: string -> Option<real>)
    ensures var r := Tick(s, tegraOut, procOut, parse);
      r.ok ==> forall e :: e in r.events ==> Recognized(Text.Lower(e.key))
  {
    if StatsOf(tegraOut).Some? && UsageOf(procOut).Some? {
      ProducedRecognized(StatsOf(tegraOut).value, UsageOf(procOut).value, s.metrics);
    }
  }

  /** A failing pass sets to 0.0 the series of every recognized name in
      `metric_set`: the one dispatch wrote, with no index. */
  lemma TickFailureZeroes(s: State, tegraOut: Option<string>, procOut: Option<string>, parse: string -> Option<real>, key: string, name: string)
    requires Good(s)
    requires StatsOf(tegraOut).None? || UsageOf(procOut).None?
    requires Recorded(s.metrics, key, name) && Recognized(Text.Lower(name))
    ensures var sink := Tick(s, tegraOut, procOut, parse).state.sink;
      var id := SeriesId(Text.Lower(name), key, "0");
      id in sink.series && sink.series[id] == 0.0
  {
    NullifyZeroes(s.metrics, s.sink, parse, key, name);
  }

  /** A failing pass leaves every per-core and per-cluster series at its last
      value. */
  lemma TickFailureKeepsIndexedSeries(s: State, tegraOut: Option<string>, procOut: Option<string>, parse: string -> Option<real>, id: SeriesId)
    requires Good(s)
    requires StatsOf(tegraOut).None? || UsageOf(procOut).None?
    requires IndexedSeries(id) && id in s.sink.series
    ensures var sink := Tick(s, tegraOut, procOut, parse).state.sink;
      id in sink.series && sink.series[id] == s.sink.series[id]
  {
    NullifyKeepsIndexedSeries(s.metrics, s.sink, parse, id);
  }

  /** The collection outcomes of one pass. */
  datatype Collected = Collected(tegraOut: Option<string>, procOut: Option<string>)

  /** A finite run of passes, one per collection outcome, in order. From a
      state meeting the invariant, the invariant holds throughout and
      `metric_set` only grows. */
  function Run(s: State, inputs: seq<Collected>, parse: string -> Option<real>): (r: State)
    ensures Good(s) ==> Good(r)
    ensures Good(s) ==> forall k, n :: Recorded(s.metrics, k, n) ==> Recorded(r.metrics, k, n)
    decreases |inputs|
  {
    if |inputs| == 0 then s
    else
      TickKeepsGood(s, inputs[0].tegraOut, inputs[0].procOut, parse);
      Run(Tick(s, inputs[0].tegraOut, inputs[0].procOut, parse).state, inputs[1..], parse)
  }
}
