/** The tegrastats line tokenizer (`GpuModule._parse_tegra_stats` and the
    loop around it): the stripped line is split on single spaces and walked
    with a cursor; each step reads one token as an entity and, for the eight
    entities that carry a payload, one more token as its payload. */
module Tegrastats {
  import opened Options
  import opened Text
  import opened Decimal
  import OrderedMap

  /** The fixed vocabulary of buffer keys. */
  datatype FieldKey =
    | GpuUtil | GpuFreq | GpuTemp | Cpu | CpuTemp | Ram
    | EmcUtil | EmcFreq | Nvenc | Nvenc1 | Nvdec | Nvdec1

  /** The key as the Python dictionary spells it. */
  function KeyName(k: FieldKey): string {
    match k
    case GpuUtil => "GPU_UTIL"
    case GpuFreq => "GPU_FREQ"
    case GpuTemp => "GPU_TEMP"
    case Cpu => "CPU"
    case CpuTemp => "CPU_TEMP"
    case Ram => "RAM"
    case EmcUtil => "EMC_UTIL"
    case EmcFreq => "EMC_FREQ"
    case Nvenc => "NVENC"
    case Nvenc1 => "NVENC1"
    case Nvdec => "NVDEC"
    case Nvdec1 => "NVDEC1"
  }

  /** The key a name spells, if any. */
  function KeyOf(name: string): (r: Option<FieldKey>)
    ensures r.Some? ==> KeyName(r.value) == name
  {
    if name == "GPU_UTIL" then Some(GpuUtil)
    else if name == "GPU_FREQ" then Some(GpuFreq)
    else if name == "GPU_TEMP" then Some(GpuTemp)
    else if name == "CPU" then Some(Cpu)
    else if name == "CPU_TEMP" then Some(CpuTemp)
    else if name == "RAM" then Some(Ram)
    else if name == "EMC_UTIL" then Some(EmcUtil)
    else if name == "EMC_FREQ" then Some(EmcFreq)
    else if name == "NVENC" then Some(Nvenc)
    else if name == "NVENC1" then Some(Nvenc1)
    else if name == "NVDEC" then Some(Nvdec)
    else if name == "NVDEC1" then Some(Nvdec1)
    else None
  }

  /** Every key's spelling reads back as that key, so no two keys share one. */
  lemma KeyOfKeyName(k: FieldKey)
    ensures KeyOf(KeyName(k)) == Some(k)
  {
  }

  /** A buffer value: one string, or the per-core / per-cluster list. */
  datatype FieldValue = Scalar(text: string) | Items(texts: seq<string>)

  /** The tokenizer's output, in the insertion order of the Python dict. */
  type Buffer = OrderedMap.Assoc<FieldKey, FieldValue>

  predicate IsListKey(k: FieldKey) {
    k == Cpu || k == GpuFreq
  }

  /** Keys are distinct, and exactly the CPU and GPU_FREQ entries hold lists. */
  ghost predicate WellShaped(b: Buffer) {
    && OrderedMap.DistinctKeys(b)
    && forall i :: 0 <= i < |b| ==> (IsListKey(b[i].0) <==> b[i].1.Items?)
  }

  lemma PutShaped(b: Buffer, k: FieldKey, v: FieldValue)
    requires WellShaped(b)
    requires IsListKey(k) <==> v.Items?
    ensures WellShaped(OrderedMap.Put(b, k, v))
  {
    OrderedMap.PutDistinct(b, k, v);
  }

  /** Entities after which the next token is consumed as their payload. */
  predicate TakesPayload(entity: string) {
    entity in ["RAM", "CPU", "EMC_FREQ", "GR3D_FREQ", "NVENC", "NVENC1", "NVDEC", "NVDEC1"]
  }

  /** Entities whose payload holds an integer frequency, so a non-integer one
      raises. */
  predicate ReadsFrequency(entity: string) {
    entity in ["EMC_FREQ", "GR3D_FREQ", "NVENC", "NVENC1", "NVDEC", "NVDEC1"]
  }

  /** MHz to Hz. */
  const MHz: nat := 1000000

  /** `str(int(t) * 1000000)`: defined exactly on digit strings, and then the
      canonical decimal spelling of the number `t` spells times 1,000,000. */
  function ScaleMHz(t: string): (r: Option<string>)
    ensures r.Some? <==> IsDigits(t)
    ensures r.Some? ==> r.value == NatToString(DigitsValue(t) * MHz)
  {
    match ParseNat(t)
    case None => None
    case Some(n) => Some(NatToString(n * MHz))
  }

  /** `[str(int(g) * 1000000) for g in ts]`: fails if any entry is not an
      integer. */
  function ScaleAllMHz(ts: seq<string>): (r: Option<seq<string>>)
    ensures r.Some? <==> forall i :: 0 <= i < |ts| ==> IsDigits(ts[i])
    ensures r.Some? ==> |r.value| == |ts|
    ensures r.Some? ==> forall i :: 0 <= i < |ts| ==> r.value[i] == NatToString(DigitsValue(ts[i]) * MHz)
  {
    if |ts| == 0 then Some([])
    else
      match ScaleMHz(ts[0])
      case None => None
      case Some(f) =>
        match ScaleAllMHz(ts[1..])
        case None => None
        case Some(fs) => Some([f] + fs)
  }

  /** Python `s.replace("[", "").replace("]", "").split(",")`. */
  function BracketList(s: string): seq<string> {
    Split(RemoveAll(RemoveAll(s, '['), ']'), ',')
  }

  /** A bracketed list splits on the commas of its inside. */
  lemma BracketListOfBracketed(inside: string)
    requires '[' !in inside && ']' !in inside
    ensures BracketList("[" + inside + "]") == Split(inside, ',')
  {
    var tail := inside + [']'];
    assert "[" + inside + "]" == ['['] + tail;
    RemoveLeading(tail, '[');
    assert '[' !in tail by {
      assert forall i :: 0 <= i < |inside| ==> tail[i] == inside[i];
    }
    RemoveAbsent(tail, '[');
    RemoveTrailing(inside, ']');
    RemoveAbsent(inside, ']');
  }

  /** The CPU payload "[10%@102,off,...]": one entry per core, each cut at its
      first "%". */
  function CoreLoads(payload: string): seq<string> {
    var parts := BracketList(payload);
    seq(|parts|, i requires 0 <= i < |parts| => Before(parts[i], '%'))
  }

  /** The GR3D_FREQ frequency list: the text after the last "@", brackets
      removed, split on ",". */
  function ClusterFreqs(payload: string): seq<string> {
    BracketList(After(payload, '@'))
  }

  /** The buffer update for an entity that takes a payload; `None` where the
      Python code raises on a non-integer frequency, so RAM and CPU never
      fail. */
  function ApplyPayload(entity: string, payload: string, buf: Buffer): (r: Option<Buffer>)
    requires TakesPayload(entity)
    ensures r.None? ==> ReadsFrequency(entity)
  {
    if entity == "RAM" then
      Some(OrderedMap.Put(buf, Ram, Scalar(Before(payload, '/'))))
    else if entity == "CPU" then
      Some(if OrderedMap.Get(buf, Cpu).Some? then buf
           else OrderedMap.Put(buf, Cpu, Items(CoreLoads(payload))))
    else if entity == "EMC_FREQ" then
      match ScaleMHz(After(payload, '@'))
      case None => None
      case Some(f) =>
        Some(OrderedMap.Put(OrderedMap.Put(buf, EmcUtil, Scalar(Before(payload, '%'))), EmcFreq, Scalar(f)))
    else if entity == "GR3D_FREQ" then
      match ScaleAllMHz(ClusterFreqs(payload))
      case None => None
      case Some(fs) =>
        Some(OrderedMap.Put(OrderedMap.Put(buf, GpuUtil, Scalar(Before(payload, '%'))), GpuFreq, Items(fs)))
    else if payload == "off" then
      Some(buf)
    else
      match ScaleMHz(After(payload, '@'))
      case None => None
      case Some(f) =>
        var k := if entity == "NVENC" then Nvenc else if entity == "NVENC1" then Nvenc1
          else if entity == "NVDEC" then Nvdec else Nvdec1;
        Some(OrderedMap.Put(buf, k, Scalar(f)))
  }

  /** The temperature text of "GPU@45.5C": the second "@"-field without its
      last character. */
  function TempText(entity: string): string
    requires '@' in entity
  {
    SplitAtSeparator(entity, '@');
    DropLast(Split(entity, '@')[1])
  }

  predicate IsGpuTemp(entity: string) {
    Contains(entity, "GPU@") || Contains(entity, "gpu@")
  }

  predicate IsCpuTemp(entity: string) {
    Contains(entity, "CPU@") || Contains(entity, "cpu@")
  }

  lemma TempMarkerHasAt(entity: string)
    requires IsGpuTemp(entity) || IsCpuTemp(entity)
    ensures '@' in entity
  {
    if Contains(entity, "GPU@") {
      ContainsChars(entity, "GPU@", 3);
    } else if Contains(entity, "gpu@") {
      ContainsChars(entity, "gpu@", 3);
    } else if Contains(entity, "CPU@") {
      ContainsChars(entity, "CPU@", 3);
    } else {
      ContainsChars(entity, "cpu@", 3);
    }
  }

  /** The two temperature checks, applied to every entity after its payload. */
  function ApplyTemps(entity: string, buf: Buffer): Buffer {
    var b := if IsGpuTemp(entity) then
      TempMarkerHasAt(entity);
      OrderedMap.Put(buf, GpuTemp, Scalar(TempText(entity)))
    else buf;
    if IsCpuTemp(entity) then
      TempMarkerHasAt(entity);
      OrderedMap.Put(b, CpuTemp, Scalar(TempText(entity)))
    else b
  }

  /** The outcome of one step: the end sentinel, the advanced cursor with the
      updated buffer, or a raised exception. */
  datatype StepResult = End | Next(cursor: nat, buffer: Buffer) | Fail

  /** One call of `_parse_tegra_stats`: returns the end sentinel exactly when
      no token is left; otherwise consumes one token, or two for an entity
      that takes a payload; fails only on such an entity, when its payload is
      missing or holds a non-integer frequency. */
  function Step(tokens: seq<string>, cursor: nat, buf: Buffer): (r: StepResult)
    requires cursor <= |tokens|
    ensures r.End? <==> cursor == |tokens|
    ensures r.Next? ==> r.cursor == cursor + (if TakesPayload(tokens[cursor]) then 2 else 1)
    ensures r.Next? ==> r.cursor <= |tokens|
    ensures r.Fail? ==> TakesPayload(tokens[cursor])
    ensures r.Fail? ==> cursor + 1 == |tokens| || ReadsFrequency(tokens[cursor])
    ensures cursor < |tokens| && TakesPayload(tokens[cursor]) && cursor + 1 == |tokens| ==> r.Fail?
  {
    if cursor == |tokens| then End
    else
      var entity := tokens[cursor];
      if TakesPayload(entity) then
        if cursor + 1 == |tokens| then Fail
        else
          match ApplyPayload(entity, tokens[cursor + 1], buf)
          case None => Fail
          case Some(b) => Next(cursor + 2, ApplyTemps(entity, b))
      else
        Next(cursor + 1, ApplyTemps(entity, buf))
  }

  /** The loop of `_process_gpu_stats_forever` around `Step`: steps until the
      end sentinel; any failing step fails the whole parse. Starting from a
      well-shaped buffer, a successful parse ends with one. */
  function ParseTokens(tokens: seq<string>, cursor: nat, buf: Buffer): (r: Option<Buffer>)
    requires cursor <= |tokens|
    ensures r.Some? && WellShaped(buf) ==> WellShaped(r.value)
    decreases |tokens| - cursor
  {
    StepShaped(tokens, cursor, buf);
    match Step(tokens, cursor, buf)
    case End => Some(buf)
    case Fail => None
    case Next(c, b) => ParseTokens(tokens, c, b)
  }

  /** Parse one stripped tegrastats line, split on single spaces. A parsed
      line has distinct keys, with lists exactly under CPU and GPU_FREQ. */
  function ParseLine(line: string): (r: Option<Buffer>)
    ensures r.Some? ==> WellShaped(r.value)
  {
    ParseTokens(Split(line, ' '), 0, [])
  }

  // ---------------------------------------------------------------------------
  // What one step does to the buffer

  /** `b'` agrees with `b` on every key outside `ks`. */
  ghost predicate SameExcept(b: Buffer, b': Buffer, ks: set<FieldKey>) {
    forall k :: k !in ks ==> OrderedMap.Get(b', k) == OrderedMap.Get(b, k)
  }

  lemma PutSameExcept(b: Buffer, k: FieldKey, v: FieldValue)
    ensures SameExcept(b, OrderedMap.Put(b, k, v), {k})
    ensures OrderedMap.Get(OrderedMap.Put(b, k, v), k) == Some(v)
  {
    OrderedMap.GetPutSame(b, k, v);
    forall j | j !in {k}
      ensures OrderedMap.Get(OrderedMap.Put(b, k, v), j) == OrderedMap.Get(b, j)
    {
      OrderedMap.GetPutOther(b, k, v, j);
    }
  }

  /** Two puts under distinct keys change those two keys alone. */
  lemma PutTwo(b: Buffer, k1: FieldKey, v1: FieldValue, k2: FieldKey, v2: FieldValue)
    requires k1 != k2
    ensures var b' := OrderedMap.Put(OrderedMap.Put(b, k1, v1), k2, v2);
      && SameExcept(b, b', {k1, k2})
      && OrderedMap.Get(b', k1) == Some(v1) && OrderedMap.Get(b', k2) == Some(v2)
  {
    var b1 := OrderedMap.Put(b, k1, v1);
    PutSameExcept(b, k1, v1);
    PutSameExcept(b1, k2, v2);
  }

  /** An entity without "@" triggers neither temperature check. */
  lemma NoTempsWithoutAt(entity: string, buf: Buffer)
    requires '@' !in entity
    ensures ApplyTemps(entity, buf) == buf
  {
    if IsGpuTemp(entity) || IsCpuTemp(entity) {
      TempMarkerHasAt(entity);
    }
  }

  /** No entity that takes a payload holds "@". */
  lemma PayloadEntityPlain(e: string)
    requires TakesPayload(e)
    ensures '@' !in e
  {
  }

  /** An entity that takes a payload steps over two tokens to the buffer
      `ApplyPayload` builds, or fails with it. */
  lemma StepPayload(tokens: seq<string>, cursor: nat, buf: Buffer)
    requires cursor + 1 < |tokens| && TakesPayload(tokens[cursor])
    ensures var a := ApplyPayload(tokens[cursor], tokens[cursor + 1], buf);
      Step(tokens, cursor, buf) == if a.None? then Fail else Next(cursor + 2, a.value)
  {
    var a := ApplyPayload(tokens[cursor], tokens[cursor + 1], buf);
    PayloadEntityPlain(tokens[cursor]);
    if a.Some? {
      NoTempsWithoutAt(tokens[cursor], a.value);
    }
  }

  /** A token that takes no payload and holds no temperature marker is
      consumed alone and leaves the buffer unchanged. */
  lemma StepIgnores(tokens: seq<string>, cursor: nat, buf: Buffer)
    requires cursor < |tokens|
    requires !TakesPayload(tokens[cursor])
    requires !IsGpuTemp(tokens[cursor]) && !IsCpuTemp(tokens[cursor])
    ensures Step(tokens, cursor, buf) == Next(cursor + 1, buf)
  {
  }

  /** RAM keeps the text before the first "/" of its payload. */
  lemma StepRam(tokens: seq<string>, cursor: nat, buf: Buffer)
    requires cursor + 1 < |tokens| && tokens[cursor] == "RAM"
    ensures var r := Step(tokens, cursor, buf);
      var p := tokens[cursor + 1];
      && r.Next? && r.cursor == cursor + 2
      && SameExcept(buf, r.buffer, {Ram})
      && (exists u :: OrderedMap.Get(r.buffer, Ram) == Some(Scalar(u))
            && u <= p && '/' !in u && (|u| == |p| || p[|u|] == '/'))
  {
    var p := tokens[cursor + 1];
    NoTempsWithoutAt("RAM", OrderedMap.Put(buf, Ram, Scalar(Before(p, '/'))));
    PutSameExcept(buf, Ram, Scalar(Before(p, '/')));
    BeforeIsPrefix(p, '/');
  }

  /** CPU always consumes its payload, but only the first CPU payload of a
      line is kept; the guard looks at the CPU key alone, so a CPU_TEMP entry
      does not block it. */
  lemma StepCpu(tokens: seq<string>, cursor: nat, buf: Buffer)
    requires cursor + 1 < |tokens| && tokens[cursor] == "CPU"
    ensures var r := Step(tokens, cursor, buf);
      && r.Next? && r.cursor == cursor + 2
      && (OrderedMap.Get(buf, Cpu).Some? ==> r.buffer == buf)
      && (OrderedMap.Get(buf, Cpu).None? ==>
            && SameExcept(buf, r.buffer, {Cpu})
            && OrderedMap.Get(r.buffer, Cpu) == Some(Items(CoreLoads(tokens[cursor + 1]))))
  {
    var p := tokens[cursor + 1];
    if OrderedMap.Get(buf, Cpu).Some? {
      NoTempsWithoutAt("CPU", buf);
    } else {
      NoTempsWithoutAt("CPU", OrderedMap.Put(buf, Cpu, Items(CoreLoads(p))));
      PutSameExcept(buf, Cpu, Items(CoreLoads(p)));
    }
  }

  /** The CPU payload's fields, rejoined with ",", give the payload without
      its brackets; each CPU entry is the leading part of its field, cut just
      before the first "%". */
  lemma CoreLoadsCut(payload: string, i: nat)
    requires i < |CoreLoads(payload)|
    ensures Join(BracketList(payload), ',') == RemoveAll(RemoveAll(payload, '['), ']')
    ensures var part := BracketList(payload)[i];
      var e := CoreLoads(payload)[i];
      && e <= part && '%' !in e && (|e| == |part| || part[|e|] == '%')
      && ',' !in part
  {
    JoinSplit(RemoveAll(RemoveAll(payload, '['), ']'), ',');
    BeforeIsPrefix(BracketList(payload)[i], '%');
  }

  /** EMC_FREQ fails exactly when the text after the last "@" is not an
      integer; otherwise EMC_UTIL is the text before the first "%" and
      EMC_FREQ that integer times 1,000,000. */
  lemma StepEmc(tokens: seq<string>, cursor: nat, buf: Buffer)
    requires cursor + 1 < |tokens| && tokens[cursor] == "EMC_FREQ"
    ensures var r := Step(tokens, cursor, buf);
      var p := tokens[cursor + 1];
      && (r.Fail? <==> !IsDigits(After(p, '@')))
      && (r.Next? ==>
            && r.cursor == cursor + 2
            && SameExcept(buf, r.buffer, {EmcUtil, EmcFreq})
            && OrderedMap.Get(r.buffer, EmcUtil) == Some(Scalar(Before(p, '%')))
            && OrderedMap.Get(r.buffer, EmcFreq) == Some(Scalar(NatToString(DigitsValue(After(p, '@')) * MHz))))
  {
    var p := tokens[cursor + 1];
    StepPayload(tokens, cursor, buf);
    ApplyEmc(p, buf);
    match ScaleMHz(After(p, '@'))
    case None =>
    case Some(f) =>
      PutTwo(buf, EmcUtil, Scalar(Before(p, '%')), EmcFreq, Scalar(f));
  }

  /** The EMC_FREQ branch of `ApplyPayload`. */
  lemma ApplyEmc(p: string, buf: Buffer)
    ensures var f := ScaleMHz(After(p, '@'));
      ApplyPayload("EMC_FREQ", p, buf) == if f.None? then None else
        Some(OrderedMap.Put(OrderedMap.Put(buf, EmcUtil, Scalar(Before(p, '%'))), EmcFreq, Scalar(f.value)))
  {
  }

  /** Each of `fs` is the canonical decimal of the matching entry of `gs`
      times 1,000,000. */
  ghost predicate ScaledFrom(fs: seq<string>, gs: seq<string>) {
    && |fs| == |gs|
    && forall i :: 0 <= i < |gs| ==> IsDigits(gs[i]) && fs[i] == NatToString(DigitsValue(gs[i]) * MHz)
  }

  /** The GR3D_FREQ branch of `ApplyPayload`. */
  lemma ApplyGr3d(p: string, buf: Buffer)
    ensures var fs := ScaleAllMHz(ClusterFreqs(p));
      ApplyPayload("GR3D_FREQ", p, buf) == if fs.None? then None else
        Some(OrderedMap.Put(OrderedMap.Put(buf, GpuUtil, Scalar(Before(p, '%'))), GpuFreq, Items(fs.value)))
  {
  }

  /** GR3D_FREQ fails exactly when some per-cluster frequency is not an
      integer; otherwise GPU_UTIL is the text before the first "%" and
      GPU_FREQ holds one scaled frequency per cluster, in order. */
  lemma StepGr3d(tokens: seq<string>, cursor: nat, buf: Buffer)
    requires cursor + 1 < |tokens| && tokens[cursor] == "GR3D_FREQ"
    ensures var r := Step(tokens, cursor, buf);
      var p := tokens[cursor + 1];
      var gs := ClusterFreqs(p);
      && (r.Fail? <==> exists i :: 0 <= i < |gs| && !IsDigits(gs[i]))
      && (r.Next? ==>
            && r.cursor == cursor + 2
            && SameExcept(buf, r.buffer, {GpuUtil, GpuFreq})
            && OrderedMap.Get(r.buffer, GpuUtil) == Some(Scalar(Before(p, '%')))
            && (exists fs :: OrderedMap.Get(r.buffer, GpuFreq) == Some(Items(fs))
                  && ScaledFrom(fs, gs)))
  {
    var p := tokens[cursor + 1];
    StepPayload(tokens, cursor, buf);
    ApplyGr3d(p, buf);
    match ScaleAllMHz(ClusterFreqs(p))
    case None =>
    case Some(fs) =>
      PutTwo(buf, GpuUtil, Scalar(Before(p, '%')), GpuFreq, Items(fs));
      assert ScaledFrom(fs, ClusterFreqs(p));
  }

  /** An NVENC/NVENC1/NVDEC/NVDEC1 payload of "off" changes nothing (the key
      stays absent if it was); any other payload fails unless the text after
      its last "@" is an integer, which is stored times 1,000,000. */
  lemma StepCodec(tokens: seq<string>, cursor: nat, buf: Buffer, k: FieldKey)
    requires k in {Nvenc, Nvenc1, Nvdec, Nvdec1}
    requires cursor + 1 < |tokens| && tokens[cursor] == KeyName(k)
    ensures var r := Step(tokens, cursor, buf);
      var p := tokens[cursor + 1];
      && (p == "off" ==> r == Next(cursor + 2, buf))
      && (p != "off" ==> (r.Fail? <==> !IsDigits(After(p, '@'))))
      && (p != "off" && r.Next? ==>
            && r.cursor == cursor + 2
            && SameExcept(buf, r.buffer, {k})
            && OrderedMap.Get(r.buffer, k) == Some(Scalar(NatToString(DigitsValue(After(p, '@')) * MHz))))
  {
    var p := tokens[cursor + 1];
    StepPayload(tokens, cursor, buf);
    ApplyCodec(k, p, buf);
    if p != "off" {
      match ScaleMHz(After(p, '@'))
      case None =>
      case Some(f) =>
        PutSameExcept(buf, k, Scalar(f));
    }
  }

  /** The NVENC/NVENC1/NVDEC/NVDEC1 branch of `ApplyPayload` for key `k`. */
  ghost function CodecUpdate(k: FieldKey, p: string, buf: Buffer): Option<Buffer> {
    if p == "off" then Some(buf)
    else
      var f := ScaleMHz(After(p, '@'));
      if f.None? then None else Some(OrderedMap.Put(buf, k, Scalar(f.value)))
  }

  lemma ApplyCodec(k: FieldKey, p: string, buf: Buffer)
    requires k in {Nvenc, Nvenc1, Nvdec, Nvdec1}
    ensures TakesPayload(KeyName(k))
    ensures ApplyPayload(KeyName(k), p, buf) == CodecUpdate(k, p, buf)
  {
    match k
    case Nvenc => ApplyNvenc(p, buf);
    case Nvenc1 => ApplyNvenc1(p, buf);
    case Nvdec => ApplyNvdec(p, buf);
    case Nvdec1 => ApplyNvdec1(p, buf);
  }

  lemma ApplyNvenc(p: string, buf: Buffer)
    ensures ApplyPayload("NVENC", p, buf) == CodecUpdate(Nvenc, p, buf)
  {
  }

  lemma ApplyNvenc1(p: string, buf: Buffer)
    ensures ApplyPayload("NVENC1", p, buf) == CodecUpdate(Nvenc1, p, buf)
  {
  }

  lemma ApplyNvdec(p: string, buf: Buffer)
    ensures ApplyPayload("NVDEC", p, buf) == CodecUpdate(Nvdec, p, buf)
  {
  }

  lemma ApplyNvdec1(p: string, buf: Buffer)
    ensures ApplyPayload("NVDEC1", p, buf) == CodecUpdate(Nvdec1, p, buf)
  {
  }

  /** A token containing "GPU@"/"gpu@" sets GPU_TEMP, and one containing
      "CPU@"/"cpu@" sets CPU_TEMP, to its second "@"-field without the last
      character; nothing else changes. */
  lemma StepTemps(tokens: seq<string>, cursor: nat, buf: Buffer)
    requires cursor < |tokens| && !TakesPayload(tokens[cursor])
    ensures var r := Step(tokens, cursor, buf);
      var e := tokens[cursor];
      && r.Next? && r.cursor == cursor + 1
      && SameExcept(buf, r.buffer, {GpuTemp, CpuTemp})
      && (IsGpuTemp(e) ==> '@' in e && OrderedMap.Get(r.buffer, GpuTemp) == Some(Scalar(TempText(e))))
      && (!IsGpuTemp(e) ==> OrderedMap.Get(r.buffer, GpuTemp) == OrderedMap.Get(buf, GpuTemp))
      && (IsCpuTemp(e) ==> '@' in e && OrderedMap.Get(r.buffer, CpuTemp) == Some(Scalar(TempText(e))))
      && (!IsCpuTemp(e) ==> OrderedMap.Get(r.buffer, CpuTemp) == OrderedMap.Get(buf, CpuTemp))
  {
    var e := tokens[cursor];
    var b := buf;
    if IsGpuTemp(e) {
      TempMarkerHasAt(e);
      PutSameExcept(buf, GpuTemp, Scalar(TempText(e)));
      b := OrderedMap.Put(buf, GpuTemp, Scalar(TempText(e)));
    }
    if IsCpuTemp(e) {
      TempMarkerHasAt(e);
      PutSameExcept(b, CpuTemp, Scalar(TempText(e)));
    }
  }

  // ---------------------------------------------------------------------------
  // Shape of the parsed buffer

  lemma ApplyPayloadShaped(entity: string, payload: string, buf: Buffer)
    requires TakesPayload(entity)
    requires WellShaped(buf)
    ensures ApplyPayload(entity, payload, buf).Some? ==> WellShaped(ApplyPayload(entity, payload, buf).value)
  {
    if entity == "RAM" {
      PutShaped(buf, Ram, Scalar(Before(payload, '/')));
    } else if entity == "CPU" {
      PutShaped(buf, Cpu, Items(CoreLoads(payload)));
    } else if entity == "EMC_FREQ" {
      match ScaleMHz(After(payload, '@'))
      case None =>
      case Some(f) =>
        PutShaped(buf, EmcUtil, Scalar(Before(payload, '%')));
        PutShaped(OrderedMap.Put(buf, EmcUtil, Scalar(Before(payload, '%'))), EmcFreq, Scalar(f));
    } else if entity == "GR3D_FREQ" {
      match ScaleAllMHz(ClusterFreqs(payload))
      case None =>
      case Some(fs) =>
        PutShaped(buf, GpuUtil, Scalar(Before(payload, '%')));
        PutShaped(OrderedMap.Put(buf, GpuUtil, Scalar(Before(payload, '%'))), GpuFreq, Items(fs));
    } else if payload != "off" {
      match ScaleMHz(After(payload, '@'))
      case None =>
      case Some(f) =>
        var k := if entity == "NVENC" then Nvenc else if entity == "NVENC1" then Nvenc1
          else if entity == "NVDEC" then Nvdec else Nvdec1;
        PutShaped(buf, k, Scalar(f));
    }
  }

  lemma ApplyTempsShaped(entity: string, buf: Buffer)
    requires WellShaped(buf)
    ensures WellShaped(ApplyTemps(entity, buf))
  {
    var b := buf;
    if IsGpuTemp(entity) {
      TempMarkerHasAt(entity);
      PutShaped(buf, GpuTemp, Scalar(TempText(entity)));
      b := OrderedMap.Put(buf, GpuTemp, Scalar(TempText(entity)));
    }
    if IsCpuTemp(entity) {
      TempMarkerHasAt(entity);
      PutShaped(b, CpuTemp, Scalar(TempText(entity)));
    }
  }

  /** A step from a well-shaped buffer leaves a well-shaped one. */
  lemma StepShaped(tokens: seq<string>, cursor: nat, buf: Buffer)
    requires cursor <= |tokens|
    ensures WellShaped(buf) && Step(tokens, cursor, buf).Next? ==> WellShaped(Step(tokens, cursor, buf).buffer)
  {
    if WellShaped(buf) && cursor < |tokens| {
      var e := tokens[cursor];
      if TakesPayload(e) {
        if cursor + 1 < |tokens| {
          ApplyPayloadShaped(e, tokens[cursor + 1], buf);
          if ApplyPayload(e, tokens[cursor + 1], buf).Some? {
            ApplyTempsShaped(e, ApplyPayload(e, tokens[cursor + 1], buf).value);
          }
        }
      } else {
        ApplyTempsShaped(e, buf);
      }
    }
  }
}
