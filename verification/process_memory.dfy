/** The per-process GPU memory parser (`_parse_per_process_gpu_stats`): the
    stripped nvmap client listing loses its first and last lines, and every
    remaining line "user name pid 753528K" maps the name to the kilobytes. */
module ProcessMemory {
  import opened Options
  import opened Text
  import opened Decimal
  import OrderedMap

  /** Process name to kilobytes, in the insertion order of the Python dict. */
  type Usage = OrderedMap.Assoc<string, nat>

  /** Python `blob.split('\n')[1:-1]`. */
  function MiddleLines(blob: string): seq<string> {
    var lines := Split(blob, '\n');
    if |lines| <= 2 then [] else lines[1..|lines| - 1]
  }

  /** The first and the last line are dropped whatever they hold. */
  lemma MiddleLinesOfJoin(first: string, body: seq<string>, last: string)
    requires '\n' !in first && '\n' !in last
    requires forall i :: 0 <= i < |body| ==> '\n' !in body[i]
    ensures MiddleLines(Join([first] + body + [last], '\n')) == body
  {
    var lines := [first] + body + [last];
    forall i | 0 <= i < |lines|
      ensures '\n' !in lines[i]
    {
      if i == 0 {
        assert lines[i] == first;
      } else if i == |lines| - 1 {
        assert lines[i] == last;
      } else {
        assert lines[i] == body[i - 1];
      }
    }
    SplitJoin(lines, '\n');
    assert lines[1..|lines| - 1] == body;
  }

  /** One data line: field 1 is the process name and field 3, without its
      last character, the integer amount; fewer than four fields, or an amount
      that is not an integer, raises. A parsed name is one whitespace-free
      word of the line. */
  function ParseProcessLine(line: string): (r: Option<(string, nat)>)
    ensures r.Some? <==> |Words(line)| >= 4 && IsDigits(DropLast(Words(line)[3]))
    ensures r.Some? ==> IsWord(r.value.0) && r.value.0 in Words(line)
  {
    var fields := Words(line);
    if |fields| < 4 then None
    else
      match ParseNat(DropLast(fields[3]))
      case None => None
      case Some(kb) => Some((fields[1], kb))
  }

  /** A line of whitespace-free fields, separated by runs of whitespace and
      padded with any whitespace, parses to its second field and the integer
      spelled by its fourth minus the unit. */
  lemma ParseProcessLineOfFields(lead: string, fields: seq<string>, gaps: seq<string>, trail: string)
    requires |fields| == |gaps| + 1
    requires forall i :: 0 <= i < |fields| ==> IsWord(fields[i])
    requires forall i :: 0 <= i < |gaps| ==> IsGap(gaps[i])
    requires AllSpace(lead) && AllSpace(trail)
    ensures var r := ParseProcessLine(lead + Spaced(fields, gaps) + trail);
      && (|fields| < 4 ==> r.None?)
      && (|fields| >= 4 ==> (r.Some? <==> IsDigits(DropLast(fields[3]))))
      && (|fields| >= 4 && r.Some? ==> r.value == (fields[1], DigitsValue(DropLast(fields[3]))))
  {
    WordsSpaced(lead, fields, gaps, trail);
  }

  /** Every line parsed, or `None` as soon as one line raises. */
  function ParseAll(lines: seq<string>): (r: Option<seq<(string, nat)>>)
    ensures r.Some? <==> forall i :: 0 <= i < |lines| ==> ParseProcessLine(lines[i]).Some?
    ensures r.Some? ==> |r.value| == |lines|
    ensures r.Some? ==> forall i :: 0 <= i < |lines| ==> r.value[i] == ParseProcessLine(lines[i]).value
  {
    if |lines| == 0 then Some([])
    else
      match ParseProcessLine(lines[0])
      case None => None
      case Some(e) =>
        match ParseAll(lines[1..])
        case None => None
        case Some(es) => Some([e] + es)
  }

  /** The dict assignments `usage[name] = kb`, in line order. */
  function PutAll(entries: seq<(string, nat)>, acc: Usage): Usage
    decreases |entries|
  {
    if |entries| == 0 then acc
    else PutAll(entries[1..], OrderedMap.Put(acc, entries[0].0, entries[0].1))
  }

  /** Entry `i` is named `name`, holds `kb`, and no later entry is named `name`. */
  ghost predicate IsLastFor(entries: seq<(string, nat)>, name: string, kb: nat, i: int) {
    && 0 <= i < |entries| && entries[i] == (name, kb)
    && forall j :: i < j < |entries| ==> entries[j].0 != name
  }

  lemma LastForShift(entries: seq<(string, nat)>, name: string, kb: nat)
    requires |entries| > 0
    requires exists i :: IsLastFor(entries[1..], name, kb, i)
    ensures exists i :: IsLastFor(entries, name, kb, i)
  {
    var i :| IsLastFor(entries[1..], name, kb, i);
    assert IsLastFor(entries, name, kb, i + 1);
  }

  /** The amount of the last entry named `name`, if any. */
  function LastFor(entries: seq<(string, nat)>, name: string): (r: Option<nat>)
    ensures r.None? <==> forall i :: 0 <= i < |entries| ==> entries[i].0 != name
    ensures r.Some? ==> exists i :: IsLastFor(entries, name, r.value, i)
    decreases |entries|
  {
    if |entries| == 0 then None
    else
      var rest := LastFor(entries[1..], name);
      if rest.Some? then
        LastForShift(entries, name, rest.value);
        rest
      else if entries[0].0 == name then
        assert IsLastFor(entries, name, entries[0].1, 0) by {
          assert forall j :: 0 < j < |entries| ==> entries[j].0 == entries[1..][j - 1].0;
        }
        Some(entries[0].1)
      else None
  }

  /** On a repeated name the later line wins: after all assignments a name
      holds the amount of its last line, or its earlier value if no line
      names it. */
  lemma {:induction false} PutAllLaterWins(entries: seq<(string, nat)>, acc: Usage, name: string)
    ensures OrderedMap.Get(PutAll(entries, acc), name) ==
      match LastFor(entries, name)
      case Some(kb) => Some(kb)
      case None => OrderedMap.Get(acc, name)
    decreases |entries|
  {
    if |entries| > 0 {
      var acc' := OrderedMap.Put(acc, entries[0].0, entries[0].1);
      PutAllLaterWins(entries[1..], acc', name);
      if entries[0].0 == name {
        OrderedMap.GetPutSame(acc, name, entries[0].1);
      } else {
        OrderedMap.GetPutOther(acc, entries[0].0, entries[0].1, name);
      }
    }
  }

  /** The assignments keep the dict's keys distinct. */
  lemma {:induction false} PutAllDistinct(entries: seq<(string, nat)>, acc: Usage)
    requires OrderedMap.DistinctKeys(acc)
    ensures OrderedMap.DistinctKeys(PutAll(entries, acc))
    decreases |entries|
  {
    if |entries| > 0 {
      OrderedMap.PutDistinct(acc, entries[0].0, entries[0].1);
      PutAllDistinct(entries[1..], OrderedMap.Put(acc, entries[0].0, entries[0].1));
    }
  }

  /** Python's parse of the whole stripped blob: a dict, so each process
      name appears once. */
  function ParseProcesses(blob: string): (r: Option<Usage>)
    ensures r.Some? ==> OrderedMap.DistinctKeys(r.value)
  {
    match ParseAll(MiddleLines(blob))
    case None => None
    case Some(entries) =>
      PutAllDistinct(entries, []);
      Some(PutAll(entries, []))
  }

  /** The parse succeeds exactly when every line between the first and the
      last has at least four fields and an integer amount; then each name
      maps to the amount on its last line, and no other name appears. */
  lemma ParseProcessesSpec(blob: string, name: string)
    ensures var lines := MiddleLines(blob);
      var r := ParseProcesses(blob);
      && (r.Some? <==> forall i :: 0 <= i < |lines| ==> ParseProcessLine(lines[i]).Some?)
      && (r.Some? ==> OrderedMap.Get(r.value, name) == LastFor(ParseAll(lines).value, name))
  {
    var lines := MiddleLines(blob);
    match ParseAll(lines)
    case None =>
    case Some(entries) =>
      PutAllLaterWins(entries, [], name);
  }
}
