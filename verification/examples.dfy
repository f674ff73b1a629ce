/** Concrete tegrastats tokens and the nvmap line quoted in the comment of
    `_parse_per_process_gpu_stats`, stated as lemmas about the model. Each
    example takes its literal text as a parameter fixed by its precondition. */
module Examples {
  import opened Options
  import opened Text
  import opened Decimal
  import OrderedMap
  import opened Tegrastats
  import opened ProcessMemory

  lemma JoinTwo(a: string, b: string, sep: char)
    ensures Join([a, b], sep) == a + [sep] + b
  {
    assert [a, b][1..] == [b];
  }

  lemma JoinThree(a: string, b: string, c: string, sep: char)
    ensures Join([a, b, c], sep) == a + [sep] + (b + [sep] + c)
  {
    assert [a, b, c][1..] == [b, c];
    JoinTwo(b, c, sep);
  }

  /** The text before the first `c` of `a + [c] + b`, for `a` free of `c`. */
  lemma BeforeCut(a: string, c: char, b: string)
    requires c !in a
    ensures Before(a + [c] + b, c) == a
  {
    SplitAfterPiece(a, c, b);
  }

  lemma RamPayload(p: string)
    requires p == "1234/8192MB"
    ensures Before(p, '/') == "1234"
  {
    assert p == p[..4] + ['/'] + p[5..];
    BeforeCut(p[..4], '/', p[5..]);
  }

  /** "RAM 1234/8192MB" stores RAM "1234". */
  lemma RamStep(tokens: seq<string>)
    requires tokens == ["RAM", "1234/8192MB"]
    ensures Step(tokens, 0, []) == Next(2, [(Ram, Scalar("1234"))])
  {
    var b := [(Ram, Scalar("1234"))];
    NoTempsWithoutAt(tokens[0], b);
    RamPayload(tokens[1]);
    assert OrderedMap.Put([], Ram, Scalar("1234")) == b;
    assert TakesPayload(tokens[0]);
    assert ApplyPayload(tokens[0], tokens[1], []) == Some(b);
    assert Step(tokens, 0, []) == Next(2, ApplyTemps(tokens[0], b));
  }

  /** A per-core entry "L%@F" is cut to its load "L". */
  lemma CoreEntry(x: string, load: string, rest: string)
    requires '%' !in load
    requires x == load + ['%'] + rest
    ensures Before(x, '%') == load
  {
    BeforeCut(load, '%', rest);
  }

  lemma CpuBrackets(p: string, inside: string)
    requires p == "[10%@102,off,30%@204]"
    requires inside == "10%@102,off,30%@204"
    ensures BracketList(p) == Split(inside, ',')
  {
    assert p == "[" + inside + "]";
    BracketListOfBracketed(inside);
  }

  lemma CpuSplit(inside: string, xs: seq<string>)
    requires inside == "10%@102,off,30%@204"
    requires xs == ["10%@102", "off", "30%@204"]
    ensures Split(inside, ',') == xs
  {
    assert forall i :: 0 <= i < |xs| ==> ',' !in xs[i] by {
      assert ',' !in xs[0] && ',' !in xs[1] && ',' !in xs[2];
    }
    JoinThree(xs[0], xs[1], xs[2], ',');
    assert Join(xs, ',') == inside;
    SplitJoin(xs, ',');
  }

  lemma CpuFields(p: string, xs: seq<string>)
    requires p == "[10%@102,off,30%@204]"
    requires xs == ["10%@102", "off", "30%@204"]
    ensures BracketList(p) == xs
  {
    var inside := p[1..|p| - 1];
    CpuBrackets(p, inside);
    CpuSplit(inside, xs);
  }

  lemma SeqOfThree<T>(r: seq<T>, a: T, b: T, c: T)
    requires |r| == 3 && r[0] == a && r[1] == b && r[2] == c
    ensures r == [a, b, c]
  {
  }

  /** "[10%@102,off,30%@204]" gives the per-core loads "10", "off", "30". */
  lemma CpuPayload(p: string, xs: seq<string>)
    requires p == "[10%@102,off,30%@204]"
    requires xs == ["10%@102", "off", "30%@204"]
    ensures CoreLoads(p) == ["10", "off", "30"]
  {
    CoreEntry(xs[0], "10", "@102");
    SplitNoSeparator(xs[1], '%');
    CoreEntry(xs[2], "30", "@204");
    CpuFields(p, xs);
    var r := CoreLoads(p);
    SeqOfThree(r, "10", "off", "30");
  }

  /** The first CPU payload of a line fills the empty buffer with its loads. */
  lemma FirstCpu(e: string, p: string, loads: seq<string>)
    requires e == "CPU" && CoreLoads(p) == loads
    ensures ApplyPayload(e, p, []) == Some([(Cpu, Items(loads))])
  {
    assert e != "RAM";
    var empty: Buffer := [];
    assert OrderedMap.Get(empty, Cpu) == None;
    assert OrderedMap.Put([], Cpu, Items(loads)) == [(Cpu, Items(loads))];
  }

  lemma CpuApply(e: string, p: string)
    requires e == "CPU" && p == "[10%@102,off,30%@204]"
    ensures ApplyPayload(e, p, []) == Some([(Cpu, Items(["10", "off", "30"]))])
  {
    CpuPayload(p, ["10%@102", "off", "30%@204"]);
    FirstCpu(e, p, ["10", "off", "30"]);
  }

  /** "CPU [10%@102,off,30%@204]" stores the three per-core loads. */
  lemma CpuStep(tokens: seq<string>)
    requires |tokens| == 2 && tokens[0] == "CPU" && tokens[1] == "[10%@102,off,30%@204]"
    ensures Step(tokens, 0, []) == Next(2, [(Cpu, Items(["10", "off", "30"]))])
  {
    CpuApply(tokens[0], tokens[1]);
    PlainEntity(tokens[0]);
    PayloadStep(tokens, [(Cpu, Items(["10", "off", "30"]))]);
  }

  /** "CPU" and "GR3D_FREQ" take a payload and carry no temperature marker. */
  lemma PlainEntity(e: string)
    requires e == "CPU" || e == "GR3D_FREQ"
    ensures TakesPayload(e) && '@' !in e
  {
  }

  /** A payload entity without "@" at the head of the line is one step over
      two tokens that leaves the buffer `ApplyPayload` builds. */
  lemma PayloadStep(tokens: seq<string>, b: Buffer)
    requires |tokens| >= 2 && TakesPayload(tokens[0]) && '@' !in tokens[0]
    requires ApplyPayload(tokens[0], tokens[1], []) == Some(b)
    ensures Step(tokens, 0, []) == Next(2, b)
  {
    NoTempsWithoutAt(tokens[0], b);
  }

  /** The text after the last `c` of `a + [c] + b`, for `b` free of `c`. */
  lemma AfterCut(a: string, c: char, b: string)
    requires c !in b
    ensures After(a + [c] + b, c) == b
  {
    var s := a + [c] + b;
    var r := After(s, c);
    AfterIsSuffix(s, c);
    assert forall j :: |s| - |r| <= j < |s| ==> s[j] == r[j - (|s| - |r|)];
    assert forall j :: |a| < j < |s| ==> s[j] == b[j - |a| - 1];
    assert s[|a|] == c;
  }

  lemma DigitsOf1600(t: string)
    requires t == "1600"
    ensures IsDigits(t) && DigitsValue(t) == 1600
  {
    assert "1600"[..3] == "160" && "160"[..2] == "16" && "16"[..1] == "1" && "1"[..0] == "";
    assert DigitsValue("1600") == 1600;
  }

  lemma DigitsOf204(t: string)
    requires t == "204"
    ensures IsDigits(t) && DigitsValue(t) == 204
  {
    assert "204"[..2] == "20" && "20"[..1] == "2" && "2"[..0] == "";
    assert DigitsValue("204") == 204;
  }

  /** "1600" MHz is "1600000000" Hz. */
  lemma Scale1600(t: string)
    requires t == "1600"
    ensures ScaleMHz(t) == Some("1600000000")
  {
    DigitsOf1600(t);
    assert NatToString(1600000000) == "1600000000";
  }

  /** "204" MHz is "204000000" Hz. */
  lemma Scale204(t: string)
    requires t == "204"
    ensures ScaleMHz(t) == Some("204000000")
  {
    DigitsOf204(t);
    assert NatToString(204000000) == "204000000";
  }

  /** An EMC_FREQ payload fills the empty buffer with its utilization and
      scaled frequency. */
  lemma EmcApply(p: string, util: string, freq: string)
    requires Before(p, '%') == util && ScaleMHz(After(p, '@')) == Some(freq)
    ensures ApplyPayload("EMC_FREQ", p, []) == Some([(EmcUtil, Scalar(util)), (EmcFreq, Scalar(freq))])
  {
    assert OrderedMap.Put(OrderedMap.Put([], EmcUtil, Scalar(util)), EmcFreq, Scalar(freq))
      == [(EmcUtil, Scalar(util)), (EmcFreq, Scalar(freq))];
  }

  lemma EmcPayload(p: string)
    requires p == "12%@1600"
    ensures Before(p, '%') == "12" && ScaleMHz(After(p, '@')) == Some("1600000000")
  {
    CoreEntry(p, "12", "@1600");
    assert p == p[..3] + ['@'] + p[4..];
    AfterCut(p[..3], '@', p[4..]);
    Scale1600(p[4..]);
  }

  /** "EMC_FREQ 12%@1600" stores EMC_UTIL "12" and EMC_FREQ "1600000000". */
  lemma EmcStep(tokens: seq<string>)
    requires tokens == ["EMC_FREQ", "12%@1600"]
    ensures Step(tokens, 0, []) == Next(2, [(EmcUtil, Scalar("12")), (EmcFreq, Scalar("1600000000"))])
  {
    var b := [(EmcUtil, Scalar("12")), (EmcFreq, Scalar("1600000000"))];
    NoTempsWithoutAt(tokens[0], b);
    EmcPayload(tokens[1]);
    EmcApply(tokens[1], "12", "1600000000");
    assert Step(tokens, 0, []) == Next(2, ApplyTemps(tokens[0], b));
  }

  /** Two integer frequencies scale entry by entry. */
  lemma ScaleTwo(x: string, y: string, fx: string, fy: string)
    requires ScaleMHz(x) == Some(fx) && ScaleMHz(y) == Some(fy)
    ensures ScaleAllMHz([x, y]) == Some([fx, fy])
  {
    var ts := [x, y];
    assert ts[0] == x && ts[1..] == [y];
    ScaleOne(y, fy);
    assert [fx] + [fy] == [fx, fy];
  }

  lemma ScaleOne(y: string, fy: string)
    requires ScaleMHz(y) == Some(fy)
    ensures ScaleAllMHz([y]) == Some([fy])
  {
    var ts := [y];
    assert ts[0] == y && ts[1..] == [];
    var empty: seq<string> := [];
    assert ScaleAllMHz(empty) == Some([]);
    assert [fy] + [] == [fy];
  }

  lemma GpcSplit(inside: string, xs: seq<string>)
    requires inside == "204,204"
    requires xs == ["204", "204"]
    ensures Split(inside, ',') == xs
  {
    assert forall i :: 0 <= i < |xs| ==> ',' !in xs[i] by {
      assert ',' !in xs[0] && ',' !in xs[1];
    }
    JoinTwo(xs[0], xs[1], ',');
    assert Join(xs, ',') == inside;
    SplitJoin(xs, ',');
  }

  /** "45%@[204,204]" has utilization "45" and GPC frequencies "204", "204". */
  lemma Gr3dPayload(p: string)
    requires p == "45%@[204,204]"
    ensures Before(p, '%') == "45" && ClusterFreqs(p) == ["204", "204"]
  {
    CoreEntry(p, "45", "@[204,204]");
    Gr3dAfter(p);
    GpcFields(After(p, '@'));
  }

  lemma Gr3dAfter(p: string)
    requires p == "45%@[204,204]"
    ensures After(p, '@') == "[204,204]"
  {
    var q := p[4..];
    assert p == p[..3] + ['@'] + q;
    AfterCut(p[..3], '@', q);
  }

  lemma GpcFields(q: string)
    requires q == "[204,204]"
    ensures BracketList(q) == ["204", "204"]
  {
    var inside := q[1..|q| - 1];
    GpcBrackets(q, inside);
    GpcSplit(inside, ["204", "204"]);
  }

  lemma GpcBrackets(q: string, inside: string)
    requires q == "[204,204]"
    requires inside == "204,204"
    ensures BracketList(q) == Split(inside, ',')
  {
    assert q == "[" + inside + "]";
    BracketListOfBracketed(inside);
  }

  lemma Gr3dScale(ts: seq<string>)
    requires ts == ["204", "204"]
    ensures ScaleAllMHz(ts) == Some(["204000000", "204000000"])
  {
    Scale204(ts[0]);
    Scale204(ts[1]);
    ScaleTwo(ts[0], ts[1], "204000000", "204000000");
  }

  /** A GR3D_FREQ payload fills the empty buffer with its utilization and
      scaled GPC frequencies. */
  lemma FirstGr3d(e: string, p: string, util: string, fs: seq<string>)
    requires e == "GR3D_FREQ"
    requires Before(p, '%') == util && ScaleAllMHz(ClusterFreqs(p)) == Some(fs)
    ensures ApplyPayload(e, p, []) == Some([(GpuUtil, Scalar(util)), (GpuFreq, Items(fs))])
  {
    assert OrderedMap.Put(OrderedMap.Put([], GpuUtil, Scalar(util)), GpuFreq, Items(fs))
      == [(GpuUtil, Scalar(util)), (GpuFreq, Items(fs))];
  }

  /** "GR3D_FREQ 45%@[204,204]" stores GPU_UTIL "45" and GPU_FREQ
      ["204000000", "204000000"]. */
  lemma Gr3dStep(tokens: seq<string>)
    requires |tokens| == 2 && tokens[0] == "GR3D_FREQ" && tokens[1] == "45%@[204,204]"
    ensures Step(tokens, 0, []) == Next(2, [(GpuUtil, Scalar("45")), (GpuFreq, Items(["204000000", "204000000"]))])
  {
    Gr3dPayload(tokens[1]);
    Gr3dScale(ClusterFreqs(tokens[1]));
    FirstGr3d(tokens[0], tokens[1], "45", ["204000000", "204000000"]);
    PlainEntity(tokens[0]);
    PayloadStep(tokens, [(GpuUtil, Scalar("45")), (GpuFreq, Items(["204000000", "204000000"]))]);
  }

  /** "GPU@45.5C" carries the temperature text "45.5". */
  lemma TempTextOf(e: string)
    requires e == "GPU@45.5C"
    ensures '@' in e && TempText(e) == "45.5"
  {
    var a := e[..3];
    var b := e[4..];
    assert e == a + ['@'] + b;
    SplitAfterPiece(a, '@', b);
    SplitNoSeparator(b, '@');
    assert Split(e, '@')[1] == b;
  }

  lemma DigitsOf753528(t: string)
    requires t == "753528"
    ensures IsDigits(t) && DigitsValue(t) == 753528
  {
    assert t[..5] == "75352";
    assert "75352"[..4] == "7535";
    assert "7535"[..3] == "753";
    assert "753"[..2] == "75";
    assert "75"[..1] == "7";
    assert "7"[..0] == "";
  }

  lemma SpacedFour(a: string, b: string, c: string, d: string, g1: string, g2: string, g3: string)
    ensures Spaced([a, b, c, d], [g1, g2, g3]) == a + g1 + (b + g2 + (c + g3 + d))
  {
    assert [a, b, c, d][1..] == [b, c, d] && [g1, g2, g3][1..] == [g2, g3];
    assert [b, c, d][1..] == [c, d] && [g2, g3][1..] == [g3];
    assert [c, d][1..] == [d] && [g3][1..] == [];
    assert Spaced([d], []) == d;
    assert Spaced([c, d], [g3]) == c + g3 + d;
    assert Spaced([b, c, d], [g2, g3]) == b + g2 + (c + g3 + d);
  }

  /** The quoted line, cut at its runs of spaces. */
  lemma ProcessPieces(line: string, a: string, b: string, c: string, d: string, g1: string, g2: string, g3: string)
    requires line == "user  rosie-perceptio    27278     753528K"
    requires a == "user" && b == "rosie-perceptio" && c == "27278" && d == "753528K"
    requires g1 == "  " && g2 == "    " && g3 == "     "
    ensures line == a + g1 + (b + g2 + (c + g3 + d))
  {
  }

  lemma ProcessFields(line: string, fs: seq<string>, gaps: seq<string>)
    requires line == "user  rosie-perceptio    27278     753528K"
    requires fs == ["user", "rosie-perceptio", "27278", "753528K"]
    requires gaps == ["  ", "    ", "     "]
    ensures line == "" + Spaced(fs, gaps) + ""
  {
    ProcessPieces(line, fs[0], fs[1], fs[2], fs[3], gaps[0], gaps[1], gaps[2]);
    SpacedFour(fs[0], fs[1], fs[2], fs[3], gaps[0], gaps[1], gaps[2]);
    assert fs == [fs[0], fs[1], fs[2], fs[3]] && gaps == [gaps[0], gaps[1], gaps[2]];
  }

  lemma ProcessWords(fs: seq<string>, gaps: seq<string>)
    requires fs == ["user", "rosie-perceptio", "27278", "753528K"]
    requires gaps == ["  ", "    ", "     "]
    ensures forall i :: 0 <= i < |fs| ==> IsWord(fs[i])
    ensures forall i :: 0 <= i < |gaps| ==> IsGap(gaps[i])
  {
  }

  /** The line quoted in the source, "user  rosie-perceptio    27278
      753528K" with its runs of spaces, reads as rosie-perceptio using
      753528 kB. */
  lemma ProcessLine(line: string)
    requires line == "user  rosie-perceptio    27278     753528K"
    ensures ParseProcessLine(line) == Some(("rosie-perceptio", 753528))
  {
    var fs := ["user", "rosie-perceptio", "27278", "753528K"];
    var gaps := ["  ", "    ", "     "];
    ProcessFields(line, fs, gaps);
    ProcessWords(fs, gaps);
    ParseProcessLineOfFields("", fs, gaps, "");
    assert DropLast(fs[3]) == "753528";
    DigitsOf753528(DropLast(fs[3]));
  }
}
