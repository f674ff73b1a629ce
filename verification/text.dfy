/** The Python `str` operations the exporter relies on: `split(c)`, `split()`,
    `strip()`, `lower()`, `replace(c, "")`, `in` and slicing. Whitespace and
    case are the ASCII subsets of Python's Unicode notions. */
module Text {

  /** Python's `str.isspace`, restricted to ASCII characters. */
  predicate IsSpace(c: char) {
    c == ' ' || c == '\t' || c == '\n' || c == '\r'
    || c == '\U{000B}' || c == '\U{000C}' || ('\U{001C}' <= c <= '\U{001F}')
  }

  predicate IsUpper(c: char) {
    'A' <= c <= 'Z'
  }

  // ---------------------------------------------------------------------------
  // s.split(c): the pieces between occurrences of one separator character

  /** Python `s.split(c)` for a single-character separator: never empty, and
      no piece holds the separator. */
  function Split(s: string, c: char): (r: seq<string>)
    ensures |r| >= 1
    ensures forall i :: 0 <= i < |r| ==> c !in r[i]
  {
    if |s| == 0 then [""]
    else
      var rest := Split(s[1..], c);
      if s[0] == c then [""] + rest
      else [[s[0]] + rest[0]] + rest[1..]
  }

  /** A text holding the separator splits into at least two pieces. */
  lemma {:induction false} SplitAtSeparator(s: string, c: char)
    requires c in s
    ensures |Split(s, c)| >= 2
  {
    if s[0] != c {
      var i :| 0 <= i < |s| && s[i] == c;
      assert s[1..][i - 1] == c;
      SplitAtSeparator(s[1..], c);
    }
  }

  /** Python `c.join(xs)` for a one-character separator. */
  function Join(xs: seq<string>, c: char): string
    requires |xs| >= 1
  {
    if |xs| == 1 then xs[0] else xs[0] + [c] + Join(xs[1..], c)
  }

  /** Joining the pieces of a split gives back the original text. */
  lemma {:induction false} JoinSplit(s: string, c: char)
    ensures Join(Split(s, c), c) == s
  {
    if |s| > 0 {
      JoinSplit(s[1..], c);
      var rest := Split(s[1..], c);
      if s[0] != c && |rest| > 1 {
        assert Join(rest, c) == rest[0] + [c] + Join(rest[1..], c);
      }
    }
  }

  /** A text without the separator splits into itself alone. */
  lemma {:induction false} SplitNoSeparator(s: string, c: char)
    requires c !in s
    ensures Split(s, c) == [s]
  {
    if |s| > 0 {
      SplitNoSeparator(s[1..], c);
      assert [s[0]] + s[1..] == s;
    }
  }

  /** A leading character other than the separator joins the first piece. */
  lemma SplitCons(x: char, t: string, c: char)
    requires x != c
    ensures Split([x] + t, c) == [[x] + Split(t, c)[0]] + Split(t, c)[1..]
  {
    assert ([x] + t)[1..] == t;
  }

  /** A leading separator opens an empty first piece. */
  lemma SplitLeadingSeparator(t: string, c: char)
    ensures Split([c] + t, c) == [""] + Split(t, c)
  {
    assert ([c] + t)[1..] == t;
  }

  /** Splitting `a + [c] + b` yields `a` followed by the pieces of `b`. */
  lemma {:induction false} SplitAfterPiece(a: string, c: char, b: string)
    requires c !in a
    ensures Split(a + [c] + b, c) == [a] + Split(b, c)
  {
    if |a| == 0 {
      assert a + [c] + b == [c] + b;
      SplitLeadingSeparator(b, c);
    } else {
      var t := a[1..] + [c] + b;
      SplitAfterPiece(a[1..], c, b);
      assert a + [c] + b == [a[0]] + t;
      SplitCons(a[0], t, c);
      var rest := Split(t, c);
      assert rest[0] == a[1..] && rest[1..] == Split(b, c);
      assert [a[0]] + a[1..] == a;
    }
  }

  /** Splitting a join of separator-free pieces gives back the pieces. */
  lemma {:induction false} SplitJoin(xs: seq<string>, c: char)
    requires |xs| >= 1
    requires forall i :: 0 <= i < |xs| ==> c !in xs[i]
    ensures Split(Join(xs, c), c) == xs
  {
    if |xs| == 1 {
      SplitNoSeparator(xs[0], c);
    } else {
      SplitJoin(xs[1..], c);
      SplitAfterPiece(xs[0], c, Join(xs[1..], c));
    }
  }

  /** Python `s.split(c)[0]`: the text before the first `c`. */
  function Before(s: string, c: char): string {
    Split(s, c)[0]
  }

  /** Python `s.split(c)[-1]`: the text after the last `c`. */
  function After(s: string, c: char): string {
    var pieces := Split(s, c);
    pieces[|pieces| - 1]
  }

  /** `Before(s, c)` is the longest prefix of `s` free of `c`. */
  lemma {:induction false} BeforeIsPrefix(s: string, c: char)
    ensures var r := Before(s, c);
      && r <= s && c !in r
      && (|r| == |s| || s[|r|] == c)
  {
    if |s| > 0 && s[0] != c {
      BeforeIsPrefix(s[1..], c);
    }
  }

  /** `r` is the longest suffix of `s` free of `c`. */
  ghost predicate IsLastPiece(s: string, c: char, r: string) {
    && |r| <= |s| && r == s[|s| - |r|..] && c !in r
    && (|r| == |s| || s[|s| - |r| - 1] == c)
  }

  /** A join of two or more pieces ends with the separator and the last piece. */
  lemma {:induction false} JoinLast(xs: seq<string>, c: char)
    requires |xs| >= 2
    ensures Join(xs, c) == Join(xs[..|xs| - 1], c) + [c] + xs[|xs| - 1]
  {
    var init := xs[..|xs| - 1];
    if |xs| == 2 {
      assert init == [xs[0]];
    } else {
      JoinLast(xs[1..], c);
      assert xs[1..][..|xs| - 2] == init[1..];
      assert xs[1..][|xs| - 2] == xs[|xs| - 1];
      assert Join(init, c) == init[0] + [c] + Join(init[1..], c);
      assert xs[0] + [c] + (Join(init[1..], c) + [c] + xs[|xs| - 1])
        == (xs[0] + [c] + Join(init[1..], c)) + [c] + xs[|xs| - 1];
    }
  }

  /** `After(s, c)` is the longest suffix of `s` free of `c`. */
  lemma AfterIsSuffix(s: string, c: char)
    ensures IsLastPiece(s, c, After(s, c))
  {
    var pieces := Split(s, c);
    var r := pieces[|pieces| - 1];
    JoinSplit(s, c);
    if |pieces| >= 2 {
      JoinLast(pieces, c);
      var h := Join(pieces[..|pieces| - 1], c);
      assert s == h + [c] + r;
      assert s[|s| - |r|..] == r;
      assert s[|s| - |r| - 1] == c;
    }
  }

  // ---------------------------------------------------------------------------
  // sub in s

  predicate OccursAt(s: string, sub: string, i: nat) {
    i + |sub| <= |s| && s[i..i + |sub|] == sub
  }

  /** Python `sub in s`: `sub` occurs at some offset of `s`. */
  predicate Contains(s: string, sub: string) {
    exists i :: 0 <= i <= |s| - |sub| && OccursAt(s, sub, i)
  }

  /** A text that contains `sub` contains every character of `sub`. */
  lemma ContainsChars(s: string, sub: string, k: nat)
    requires Contains(s, sub)
    requires k < |sub|
    ensures sub[k] in s
  {
    var i :| 0 <= i <= |s| - |sub| && OccursAt(s, sub, i);
    assert s[i + k] == sub[k];
  }

  // ---------------------------------------------------------------------------
  // strip() and split()

  /** Length of the whitespace run that opens `s`. */
  function LeadingSpace(s: string): (n: nat)
    ensures n <= |s|
    ensures forall i :: 0 <= i < n ==> IsSpace(s[i])
    ensures n == |s| || !IsSpace(s[n])
  {
    if |s| > 0 && IsSpace(s[0]) then 1 + LeadingSpace(s[1..]) else 0
  }

  /** Length of `s` without the whitespace run that closes it. */
  function KeptLength(s: string): (n: nat)
    ensures n <= |s|
    ensures forall i :: n <= i < |s| ==> IsSpace(s[i])
    ensures n == 0 || !IsSpace(s[n - 1])
  {
    if |s| > 0 && IsSpace(s[|s| - 1]) then KeptLength(s[..|s| - 1]) else |s|
  }

  /** Python `s.lstrip()`. */
  function TrimStart(s: string): string {
    s[LeadingSpace(s)..]
  }

  /** `r` sits at offset `i` of `s` with only whitespace around it. */
  ghost predicate StrippedAt(s: string, r: string, i: nat) {
    && i + |r| <= |s| && r == s[i..i + |r|]
    && (forall j :: 0 <= j < i ==> IsSpace(s[j]))
    && (forall j :: i + |r| <= j < |s| ==> IsSpace(s[j]))
  }

  /** Python `s.strip()`: the infix left after removing whitespace on both
      ends; it neither starts nor ends with whitespace. */
  function Strip(s: string): (r: string)
    ensures StrippedAt(s, r, LeadingSpace(s))
    ensures |r| == 0 || (!IsSpace(r[0]) && !IsSpace(r[|r| - 1]))
  {
    var i := LeadingSpace(s);
    var n := KeptLength(s[i..]);
    assert forall j :: i + n <= j < |s| ==> IsSpace(s[j]) by {
      forall j | i + n <= j < |s|
        ensures IsSpace(s[j])
      {
        assert s[j] == s[i..][j - i];
      }
    }
    s[i..i + n]
  }

  /** The longest prefix of `s` made of non-whitespace characters. */
  function Run(s: string): (r: string)
    ensures r <= s
    ensures forall i :: 0 <= i < |r| ==> !IsSpace(r[i])
    ensures |r| == |s| || IsSpace(s[|r|])
  {
    if |s| == 0 || IsSpace(s[0]) then "" else [s[0]] + Run(s[1..])
  }

  ghost predicate IsWord(w: string) {
    |w| > 0 && forall j :: 0 <= j < |w| ==> !IsSpace(w[j])
  }

  /** Python `s.split()` with no argument: the maximal runs of non-whitespace. */
  function Words(s: string): (r: seq<string>)
    ensures forall i :: 0 <= i < |r| ==> IsWord(r[i])
    ensures |r| == 0 <==> AllSpace(s)
    decreases |s|
  {
    var t := TrimStart(s);
    if |t| == 0 then []
    else
      var w := Run(t);
      assert IsWord(w) by {
        assert t[0] == s[LeadingSpace(s)];
      }
      [w] + Words(t[|w|..])
  }

  /** `s` is whitespace only (possibly empty). */
  ghost predicate AllSpace(s: string) {
    forall j :: 0 <= j < |s| ==> IsSpace(s[j])
  }

  /** A non-empty whitespace run, as separates two words. */
  ghost predicate IsGap(s: string) {
    |s| > 0 && AllSpace(s)
  }

  lemma {:induction false} LeadingSpaceAfterSpace(sp: string, rest: string)
    requires AllSpace(sp)
    ensures LeadingSpace(sp + rest) == |sp| + LeadingSpace(rest)
  {
    if |sp| > 0 {
      LeadingSpaceAfterSpace(sp[1..], rest);
      assert (sp + rest)[1..] == sp[1..] + rest;
    } else {
      assert sp + rest == rest;
    }
  }

  /** Leading whitespace does not change the words. */
  lemma WordsAfterSpace(sp: string, rest: string)
    requires AllSpace(sp)
    ensures Words(sp + rest) == Words(rest)
  {
    LeadingSpaceAfterSpace(sp, rest);
    assert TrimStart(sp + rest) == TrimStart(rest);
  }

  /** A word followed by a whitespace run and more text splits into that
      word first. */
  lemma WordsCons(w: string, gap: string, rest: string)
    requires IsWord(w) && IsGap(gap)
    ensures Words(w + gap + rest) == [w] + Words(rest)
  {
    var s := w + gap + rest;
    assert LeadingSpace(s) == 0;
    RunWord(w, gap + rest);
    assert s == w + (gap + rest);
    assert s[|w|..] == gap + rest;
    WordsAfterSpace(gap, rest);
  }

  /** A single word splits into itself. */
  lemma WordsSingle(w: string)
    requires IsWord(w)
    ensures Words(w) == [w]
  {
    assert LeadingSpace(w) == 0;
    RunWord(w, "");
    assert w + "" == w;
  }

  /** The words `ws` with the whitespace runs `gaps` between them. */
  function Spaced(ws: seq<string>, gaps: seq<string>): string
    requires |ws| == |gaps| + 1
    decreases |gaps|
  {
    if |gaps| == 0 then ws[0] else ws[0] + gaps[0] + Spaced(ws[1..], gaps[1..])
  }

  /** Python `split()` recovers the words of any text built from them with
      non-empty whitespace runs in between and any whitespace around. */
  lemma WordsSpaced(lead: string, ws: seq<string>, gaps: seq<string>, trail: string)
    requires |ws| == |gaps| + 1
    requires forall i :: 0 <= i < |ws| ==> IsWord(ws[i])
    requires forall i :: 0 <= i < |gaps| ==> IsGap(gaps[i])
    requires AllSpace(lead) && AllSpace(trail)
    ensures Words(lead + Spaced(ws, gaps) + trail) == ws
  {
    var e := Spaced(ws, gaps) + trail;
    assert lead + Spaced(ws, gaps) + trail == lead + e;
    WordsAfterSpace(lead, e);
    WordsSpacedTail(ws, gaps, trail);
  }

  lemma {:induction false} WordsSpacedTail(ws: seq<string>, gaps: seq<string>, trail: string)
    requires |ws| == |gaps| + 1
    requires forall i :: 0 <= i < |ws| ==> IsWord(ws[i])
    requires forall i :: 0 <= i < |gaps| ==> IsGap(gaps[i])
    requires AllSpace(trail)
    ensures Words(Spaced(ws, gaps) + trail) == ws
    decreases |gaps|
  {
    if |gaps| == 0 {
      WordsTrailing(ws[0], trail);
    } else {
      var e := Spaced(ws[1..], gaps[1..]) + trail;
      WordsSpacedTail(ws[1..], gaps[1..], trail);
      assert Spaced(ws, gaps) + trail == ws[0] + gaps[0] + e;
      WordsCons(ws[0], gaps[0], e);
      assert ws == [ws[0]] + ws[1..];
    }
  }

  /** A word followed by whitespace only splits into itself. */
  lemma WordsTrailing(w: string, trail: string)
    requires IsWord(w) && AllSpace(trail)
    ensures Words(w + trail) == [w]
  {
    if |trail| == 0 {
      assert w + trail == w;
      WordsSingle(w);
    } else {
      assert w + trail == w + trail + "";
      WordsCons(w, trail, "");
    }
  }

  lemma {:induction false} RunWord(w: string, tail: string)
    requires forall j :: 0 <= j < |w| ==> !IsSpace(w[j])
    requires |tail| == 0 || IsSpace(tail[0])
    ensures Run(w + tail) == w
  {
    if |w| > 0 {
      RunWord(w[1..], tail);
      assert (w + tail)[1..] == w[1..] + tail;
    }
  }

  // ---------------------------------------------------------------------------
  // replace(c, ""), lower(), [:-1]

  /** Python `s.replace(c, "")` for a single character. */
  function RemoveAll(s: string, c: char): (r: string)
    ensures c !in r
  {
    if |s| == 0 then "" else (if s[0] == c then "" else [s[0]]) + RemoveAll(s[1..], c)
  }

  /** Removal takes out every `c` and keeps every other character, each as
      often as it occurs. */
  lemma {:induction false} RemoveAllKeeps(s: string, c: char)
    ensures multiset(RemoveAll(s, c)) == multiset(s)[c := 0]
  {
    if |s| > 0 {
      var h := if s[0] == c then "" else [s[0]];
      var t := RemoveAll(s[1..], c);
      RemoveAllKeeps(s[1..], c);
      assert s == [s[0]] + s[1..];
      assert multiset(RemoveAll(s, c)) == multiset(h) + multiset(t);
      assert multiset(h) == multiset([s[0]])[c := 0];
      assert multiset(s) == multiset([s[0]]) + multiset(s[1..]);
    }
  }

  /** Removal works piece by piece: the kept characters stay in their order. */
  lemma {:induction false} RemoveAllAppend(a: string, b: string, c: char)
    ensures RemoveAll(a + b, c) == RemoveAll(a, c) + RemoveAll(b, c)
  {
    if |a| == 0 {
      assert a + b == b;
    } else {
      var h := if a[0] == c then "" else [a[0]];
      RemoveAllAppend(a[1..], b, c);
      assert (a + b)[0] == a[0] && (a + b)[1..] == a[1..] + b;
      assert RemoveAll(a + b, c) == h + RemoveAll(a[1..] + b, c);
      assert RemoveAll(a, c) == h + RemoveAll(a[1..], c);
    }
  }

  /** Removing a character that does not occur changes nothing. */
  lemma {:induction false} RemoveAbsent(s: string, c: char)
    requires c !in s
    ensures RemoveAll(s, c) == s
  {
    if |s| > 0 {
      RemoveAbsent(s[1..], c);
      assert [s[0]] + s[1..] == s;
    }
  }

  /** Removing `c` drops a leading `c`. */
  lemma RemoveLeading(t: string, c: char)
    ensures RemoveAll([c] + t, c) == RemoveAll(t, c)
  {
    assert ([c] + t)[1..] == t;
  }

  /** Removing `c` drops a trailing `c`. */
  lemma {:induction false} RemoveTrailing(t: string, c: char)
    ensures RemoveAll(t + [c], c) == RemoveAll(t, c)
  {
    if |t| == 0 {
      assert t + [c] == [c] && [c][1..] == [];
    } else {
      RemoveTrailing(t[1..], c);
      assert (t + [c])[0] == t[0] && (t + [c])[1..] == t[1..] + [c];
    }
  }

  function LowerChar(c: char): char {
    if IsUpper(c) then (c as int + 32) as char else c
  }

  /** Python `s.lower()` on ASCII letters: same length, no upper-case letter
      left, each upper-case letter replaced by its lower-case partner 32 code
      points on, every other character kept. */
  function Lower(s: string): (r: string)
    ensures |r| == |s|
    ensures forall i :: 0 <= i < |r| ==> !IsUpper(r[i])
    ensures forall i :: 0 <= i < |s| && IsUpper(s[i]) ==> r[i] == (s[i] as int + 32) as char
    ensures forall i :: 0 <= i < |s| && !IsUpper(s[i]) ==> r[i] == s[i]
  {
    seq(|s|, i requires 0 <= i < |s| => LowerChar(s[i]))
  }

  /** Lowering a text with no upper-case letter leaves it unchanged. */
  lemma LowerOfLower(s: string)
    requires forall i :: 0 <= i < |s| ==> !IsUpper(s[i])
    ensures Lower(s) == s
  {
  }

  /** Python `s[:-1]`: everything but the last character (empty stays empty). */
  function DropLast(s: string): (r: string)
    ensures |s| > 0 ==> r + [s[|s| - 1]] == s
    ensures |s| == 0 ==> r == ""
  {
    if |s| == 0 then "" else s[..|s| - 1]
  }
}
