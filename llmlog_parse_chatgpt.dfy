/**
 * tools/llmlog_parse_chatgpt.py: the parser for conversation exports. Blocks
 * are cut out of a conversation's text by a non-overlapping BEGIN...END scan;
 * each block's BEGIN line gives `key=value` pairs, and a line state machine
 * collects the `entry`, `mission` and `outcome` sections; every block that
 * parses becomes one output row.
 */
module LlmlogParseChatgpt {
  import opened Wrappers
  import opened Text
  import opened Tags
  import LlmlogParse

  /** The only version this parser recognises: its markers spell `LLMLOG/1\.0` literally. */
  const Magic: string := "LLMLOG/1.0"

  // ----- extract_blocks_from_text ------------------------------------------

  /** `LLMLOG/1\.0\s+<word>` starting at `i`: the position just past `word`. */
  function MarkerEnd(text: string, i: nat, word: string): (r: Option<nat>)
    ensures r.Some? ==> i + |Magic| + 1 + |word| <= r.value <= |text|
  {
    if i + |Magic| <= |text| && text[i..i + |Magic|] == Magic then
      var j := i + |Magic| + SpaceRun(text[i + |Magic|..]);
      if j > i + |Magic| && j + |word| <= |text| && text[j..j + |word|] == word then Some(j + |word|) else None
    else None
  }

  /** The first position at or after `from` where `LLMLOG/1\.0\s+<word>` occurs. */
  function FirstMarker(text: string, from: nat, word: string): (r: Option<nat>)
    ensures r.Some? ==> from <= r.value && MarkerEnd(text, r.value, word).Some?
    decreases |text| - from
  {
    if from >= |text| then None
    else if MarkerEnd(text, from, word).Some? then Some(from)
    else FirstMarker(text, from + 1, word)
  }

  /** When `FirstMarker` finds a marker, there is none between `from` and it. */
  lemma {:induction false} FirstMarkerIsFirst(text: string, from: nat, word: string)
    requires FirstMarker(text, from, word).Some?
    ensures forall t :: from <= t < FirstMarker(text, from, word).value ==> MarkerEnd(text, t, word).None?
    decreases |text| - from
  {
    if MarkerEnd(text, from, word).None? {
      var v := FirstMarker(text, from, word).value;
      assert FirstMarker(text, from + 1, word) == FirstMarker(text, from, word);
      FirstMarkerIsFirst(text, from + 1, word);
      forall t | from <= t < v
        ensures MarkerEnd(text, t, word).None?
      {
        if t == from {
        }
      }
    }
  }

  /** When `FirstMarker` finds nothing, there is no marker at or after `from`. */
  lemma {:induction false} FirstMarkerNone(text: string, from: nat, word: string)
    requires FirstMarker(text, from, word).None?
    ensures forall t :: from <= t ==> MarkerEnd(text, t, word).None?
    decreases |text| - from
  {
    if from >= |text| {
      forall t | from <= t
        ensures MarkerEnd(text, t, word).None?
      {
        NoMarkerPast(text, t, word);
      }
    } else {
      FirstMarkerNone(text, from + 1, word);
    }
  }

  lemma NoMarkerPast(text: string, t: nat, word: string)
    requires |text| <= t
    ensures MarkerEnd(text, t, word).None?
  {
  }

  /** Where the leading `\s*` of a match whose marker sits at `i` starts: the leftmost such position at or after `pos`. */
  function RunStart(text: string, pos: nat, i: nat): (p: nat)
    requires pos <= i <= |text|
    ensures pos <= p <= i
    ensures forall t :: p <= t < i ==> IsSpace(text[t])
    ensures p == pos || !IsSpace(text[p - 1])
    decreases i
  {
    if i > pos && IsSpace(text[i - 1]) then RunStart(text, pos, i - 1) else i
  }

  /**
   * One match of `BLOCK_RE`: `start` where its leading whitespace begins,
   * `begin` and `end` the positions of the BEGIN and END markers, `stop` the
   * end of the whitespace after `END`.
   */
  datatype Span = Span(start: nat, begin: nat, end: nat, stop: nat)

  /**
   * What a match of `BLOCK_RE` looks like: whitespace, a BEGIN marker, text
   * holding no END marker, the first END marker, and all the whitespace after it.
   */
  predicate IsBlock(text: string, s: Span) {
    s.start <= s.begin < s.end < s.stop <= |text| &&
    (forall t :: s.start <= t < s.begin ==> IsSpace(text[t])) &&
    MarkerEnd(text, s.begin, "BEGIN").Some? && MarkerEnd(text, s.begin, "BEGIN").value <= s.end &&
    (forall t :: MarkerEnd(text, s.begin, "BEGIN").value <= t < s.end ==> MarkerEnd(text, t, "END").None?) &&
    MarkerEnd(text, s.end, "END").Some? && MarkerEnd(text, s.end, "END").value <= s.stop &&
    (forall t :: MarkerEnd(text, s.end, "END").value <= t < s.stop ==> IsSpace(text[t])) &&
    (s.stop == |text| || !IsSpace(text[s.stop]))
  }

  /**
   * The leftmost match of `BLOCK_RE` at or after `pos`: the first BEGIN marker
   * opens it and the first END marker after that closes it; when that BEGIN
   * has no END after it there is no match at all, since every later BEGIN
   * lies after it too.
   */
  function NextSpan(text: string, pos: nat): (r: Option<Span>)
    requires pos <= |text|
    ensures r.Some? ==> pos <= r.value.start <= r.value.begin < r.value.end < r.value.stop <= |text|
  {
    match FirstMarker(text, pos, "BEGIN")
    case None => None
    case Some(b) =>
      var be := MarkerEnd(text, b, "BEGIN").value;
      match FirstMarker(text, be, "END")
      case None => None
      case Some(e) =>
        var ee := MarkerEnd(text, e, "END").value;
        var stop := ee + SpaceRun(text[ee..]);
        Some(Span(RunStart(text, pos, b), b, e, stop))
  }

  lemma NextSpanIsBlock(text: string, pos: nat)
    requires pos <= |text| && NextSpan(text, pos).Some?
    ensures IsBlock(text, NextSpan(text, pos).value)
  {
    var b := FirstMarker(text, pos, "BEGIN").value;
    var be := MarkerEnd(text, b, "BEGIN").value;
    var e := FirstMarker(text, be, "END").value;
    var ee := MarkerEnd(text, e, "END").value;
    var start := RunStart(text, pos, b);
    FirstMarkerIsFirst(text, be, "END");
    SpanIsBlock(text, NextSpan(text, pos).value, start, b, be, e, ee, ee + SpaceRun(text[ee..]));
  }

  /** A BEGIN marker ending at `be`, then no END marker before the one at `e`, which ends at `ee`: one block. */
  lemma SpanIsBlock(text: string, s: Span, start: nat, b: nat, be: nat, e: nat, ee: nat, stop: nat)
    requires s == Span(start, b, e, stop)
    requires start <= b <= |text| && forall t :: start <= t < b ==> IsSpace(text[t])
    requires MarkerEnd(text, b, "BEGIN") == Some(be) && be <= e
    requires forall t :: be <= t < e ==> MarkerEnd(text, t, "END").None?
    requires MarkerEnd(text, e, "END") == Some(ee)
    requires stop == ee + SpaceRun(text[ee..])
    ensures IsBlock(text, s)
  {
    SpaceTail(text, ee, stop);
  }

  /** The whitespace run that starts at `from` ends at `stop`. */
  lemma SpaceTail(text: string, from: nat, stop: nat)
    requires from <= |text| && stop == from + SpaceRun(text[from..])
    ensures stop <= |text|
    ensures forall t :: from <= t < stop ==> IsSpace(text[t])
    ensures stop == |text| || !IsSpace(text[stop])
  {
    var u := text[from..];
    forall t | from <= t < stop
      ensures IsSpace(text[t])
    {
      assert text[t] == u[t - from];
    }
    if stop < |text| {
      assert text[stop] == u[stop - from];
    }
  }

  /**
   * `BLOCK_RE.finditer(text)` from position `pos`: the matches do not overlap,
   * and the scan resumes after each one.
   */
  function BlockSpans(text: string, pos: nat): (r: seq<Span>)
    requires pos <= |text|
    ensures Within(r, pos, |text|)
    decreases |text| - pos
  {
    match NextSpan(text, pos)
    case None => []
    case Some(s) =>
      var rest := BlockSpans(text, s.stop);
      WithinCons(s, rest, pos, |text|);
      [s] + rest
  }

  /** Spans that lie between `lo` and `hi`, each with its markers in order. */
  predicate Within(r: seq<Span>, lo: nat, hi: nat) {
    forall k :: 0 <= k < |r| ==> lo <= r[k].start <= r[k].begin < r[k].end < r[k].stop <= hi
  }

  lemma WithinCons(s: Span, rest: seq<Span>, lo: nat, hi: nat)
    requires lo <= s.start <= s.begin < s.end < s.stop <= hi
    requires Within(rest, s.stop, hi)
    ensures Within([s] + rest, lo, hi)
  {
    var r := [s] + rest;
    forall k | 0 <= k < |r|
      ensures lo <= r[k].start <= r[k].begin < r[k].end < r[k].stop <= hi
    {
      if k > 0 {
        assert r[k] == rest[k - 1];
      }
    }
  }

  /** Spans in order, none overlapping the next: each one ends before any later one starts. */
  predicate Disjoint(r: seq<Span>) {
    forall i, j :: 0 <= i < j < |r| ==> r[i].stop <= r[j].start
  }

  /** The matches do not overlap. */
  lemma {:induction false} SpansDisjoint(text: string, pos: nat)
    requires pos <= |text|
    ensures Disjoint(BlockSpans(text, pos))
    decreases |text| - pos
  {
    match NextSpan(text, pos)
    case None =>
    case Some(s) =>
      SpansDisjoint(text, s.stop);
      DisjointCons(s, BlockSpans(text, s.stop));
  }

  lemma DisjointCons(s: Span, rest: seq<Span>)
    requires Disjoint(rest)
    requires forall k :: 0 <= k < |rest| ==> s.stop <= rest[k].start
    ensures Disjoint([s] + rest)
  {
    var r := [s] + rest;
    forall i, j | 0 <= i < j < |r|
      ensures r[i].stop <= r[j].start
    {
      assert r[j] == rest[j - 1];
      if i > 0 {
        assert r[i] == rest[i - 1];
      }
    }
  }

  /** Every span the scan reports is a match of `BLOCK_RE`. */
  lemma {:induction false} SpansAreBlocks(text: string, pos: nat)
    requires pos <= |text|
    ensures forall k :: 0 <= k < |BlockSpans(text, pos)| ==> IsBlock(text, BlockSpans(text, pos)[k])
    decreases |text| - pos
  {
    var n := NextSpan(text, pos);
    if n.Some? {
      NextSpanIsBlock(text, pos);
      SpansAreBlocks(text, n.value.stop);
      var r := BlockSpans(text, pos);
      assert r == [n.value] + BlockSpans(text, n.value.stop);
      forall k | 0 < k < |r|
        ensures r[k] == BlockSpans(text, n.value.stop)[k - 1]
      {
      }
    }
  }

  /** `extract_blocks_from_text`: the text of each match, in order. */
  function Blocks(text: string): (r: seq<string>)
  {
    var ss := BlockSpans(text, 0);
    seq(|ss|, k requires 0 <= k < |ss| => text[ss[k].start..ss[k].stop])
  }

  /** A block that the scan cuts out holds the whitespace, markers and text `IsBlock` describes. */
  lemma BlocksAreBlocks(text: string, k: nat)
    requires k < |Blocks(text)|
    ensures var sp := BlockSpans(text, 0)[k]; IsBlock(text, sp) && Blocks(text)[k] == text[sp.start..sp.stop]
  {
    SpansAreBlocks(text, 0);
  }

  /**
   * A BEGIN marker between a block's BEGIN and its END opens no block of its
   * own: it is swallowed into the earlier block, and the scan goes on after
   * that block's END.
   */
  lemma Swallowed(text: string, k: nat, b2: nat)
    requires k < |BlockSpans(text, 0)|
    requires BlockSpans(text, 0)[k].begin < b2 < BlockSpans(text, 0)[k].end
    requires MarkerEnd(text, b2, "BEGIN").Some?
    ensures forall j :: 0 <= j < |BlockSpans(text, 0)| ==> BlockSpans(text, 0)[j].begin != b2
  {
    SpansDisjoint(text, 0);
    InsideOne(BlockSpans(text, 0), k, b2);
  }

  /** In disjoint spans, a position strictly inside span `k` is the BEGIN of no span. */
  lemma InsideOne(r: seq<Span>, k: nat, b2: nat)
    requires Disjoint(r)
    requires forall j :: 0 <= j < |r| ==> r[j].start <= r[j].begin < r[j].end < r[j].stop
    requires k < |r| && r[k].begin < b2 < r[k].end
    ensures forall j :: 0 <= j < |r| ==> r[j].begin != b2
  {
    forall j | 0 <= j < |r|
      ensures r[j].begin != b2
    {
      if j < k {
        assert r[j].stop <= r[k].start;
      } else if j > k {
        assert r[k].stop <= r[j].start;
      }
    }
  }

  // ----- parse_body ---------------------------------------------------------

  const Fence: string := "```"

  /**
   * The fence handling of `parse_body`: when the stripped block starts with a
   * fence, its first line goes, and so does its last line when that one,
   * stripped, starts with a fence too.
   */
  function Unfence(block: string): string {
    Unwrap(block, Fence)
  }

  /** The fence handling for the fence marker `f`. */
  function Unwrap(block: string, f: string): string {
    var t := Strip(block);
    if StartsWith(t, f) then
      var all := SplitLines(t);
      var lines := if all == [] then [] else all[1..];
      var kept := if lines != [] && StartsWith(Strip(lines[|lines| - 1]), f) then lines[..|lines| - 1] else lines;
      Join(kept, "\n")
    else block
  }

  predicate IsLineBreak(c: char) { c == '\n' || c == '\r' }

  /** The length of the longest prefix of `[^\n\r]` characters. */
  function LineRun(s: string): (n: nat)
    ensures n <= |s|
    ensures forall i :: 0 <= i < n ==> !IsLineBreak(s[i])
    ensures n < |s| ==> IsLineBreak(s[n])
  {
    if s != [] && !IsLineBreak(s[0]) then 1 + LineRun(s[1..]) else 0
  }

  /**
   * Where `(?P<kvs>[^\n\r]+)` starts after `BEGIN` ends at `j` and the
   * whitespace after it runs for `k` characters: the greedy `\s+` gives back
   * characters until one that is not a line break follows it.
   */
  function KvsStart(text: string, j: nat, k: nat): (r: Option<nat>)
    requires j + k <= |text|
    ensures r.Some? ==> j < r.value <= j + k && r.value < |text| && !IsLineBreak(text[r.value])
    ensures r.Some? ==> forall t :: r.value < t <= j + k ==> t == |text| || IsLineBreak(text[t])
    ensures r.None? ==> forall t :: j < t <= j + k ==> t == |text| || IsLineBreak(text[t])
    decreases k
  {
    if k == 0 then None
    else if j + k < |text| && !IsLineBreak(text[j + k]) then Some(j + k)
    else KvsStart(text, j, k - 1)
  }

  /** A match of `BEGIN_RE`: where it starts, where the `kvs` group starts, and where both end. */
  datatype BeginFound = BeginFound(start: nat, kvs: nat, stop: nat)

  /** `BEGIN_RE` tried at position `i`. */
  function BeginAt(text: string, i: nat): (r: Option<BeginFound>)
    ensures r.Some? ==> r.value.start == i < r.value.kvs < r.value.stop <= |text|
  {
    match MarkerEnd(text, i, "BEGIN")
    case None => None
    case Some(j) =>
      var w := SpaceRun(text[j..]);
      match KvsStart(text, j, w)
      case None => None
      case Some(ks) => Some(BeginFound(i, ks, ks + LineRun(text[ks..])))
  }

  /** `BEGIN_RE.search(text[from:])`: the match at the first position where there is one. */
  function SearchBegin(text: string, from: nat): (r: Option<BeginFound>)
    ensures r.Some? ==> from <= r.value.start && BeginAt(text, r.value.start) == r
    ensures r.Some? ==> forall t :: from <= t < r.value.start ==> BeginAt(text, t).None?
    ensures r.None? ==> forall t :: from <= t ==> BeginAt(text, t).None?
    decreases |text| - from
  {
    if from >= |text| then None
    else if BeginAt(text, from).Some? then BeginAt(text, from)
    else SearchBegin(text, from + 1)
  }

  /** `END_RE.search(raw)` on one line: optional whitespace, `LLMLOG/1\.0\s+END`, then only whitespace. */
  predicate IsEndLine(raw: string) {
    var s := SpaceRun(raw);
    MarkerEnd(raw, s, "END").Some? && AllSpace(raw[MarkerEnd(raw, s, "END").value..])
  }

  /** The section names; `sections` holds one list per name. */
  const Names: set<string> := {"entry", "mission", "outcome"}

  /** `LABEL_RE.match(raw.strip())`: the section a label line switches to. */
  function LabelOf(raw: string): (r: Option<string>)
    ensures r.Some? ==> r.value in Names && Strip(raw) == r.value + ":"
  {
    LabelText(Strip(raw))
  }

  /** The label that the stripped line `t` names, if it is one of the three. */
  function LabelText(t: string): (r: Option<string>)
    ensures r.Some? ==> r.value in Names && t == r.value + ":"
  {
    if t == "entry:" then Some("entry")
    else if t == "mission:" then Some("mission")
    else if t == "outcome:" then Some("outcome")
    else None
  }

  /** A content line as stored: one two-space indent removed when present, then `rstrip`. */
  function Dedent(raw: string): string {
    RStrip(if StartsWith(raw, "  ") then raw[2..] else raw)
  }

  /** How the loop treats a line: END stops it, a label switches section, anything else is content. */
  datatype Kind = EndMark | Label(name: string) | Content

  function KindOf(raw: string): (k: Kind)
    ensures k.Label? ==> k.name in Names
  {
    if IsEndLine(raw) then EndMark
    else match LabelOf(raw)
      case Some(name) => Label(name)
      case None => Content
  }

  /** The kind of every line. */
  function Kinds(lines: seq<string>): (ks: seq<Kind>)
    ensures |ks| == |lines|
    ensures forall i {:trigger KindOf(lines[i])} :: 0 <= i < |lines| ==> ks[i] == KindOf(lines[i])
  {
    seq(|lines|, i requires 0 <= i < |lines| => KindOf(lines[i]))
  }

  /** The line the loop breaks at: the first END line, or the number of lines. */
  function StopAt(ks: seq<Kind>): (n: nat)
    ensures n <= |ks|
    ensures forall t :: 0 <= t < n ==> !ks[t].EndMark?
    ensures n < |ks| ==> ks[n].EndMark?
  {
    if ks == [] then 0
    else if ks[0].EndMark? then 0
    else StopAt(ks[1..]) + 1
  }

  /** The section line `n` falls under: the name of the last label line before it, if any. */
  function Owner(ks: seq<Kind>, n: nat): (r: Option<string>)
    requires n <= |ks|
    ensures r.Some? ==> exists t :: 0 <= t < n && ks[t] == Label(r.value)
  {
    if n == 0 then None
    else match ks[n - 1]
      case Label(name) => Some(name)
      case _ => Owner(ks, n - 1)
  }

  /** Every line with one two-space indent removed and trailing whitespace stripped. */
  function Dedents(lines: seq<string>): (ds: seq<string>)
    ensures |ds| == |lines|
    ensures forall i {:trigger Dedent(lines[i])} :: 0 <= i < |lines| ==> ds[i] == Dedent(lines[i])
  {
    seq(|lines|, i requires 0 <= i < |lines| => Dedent(lines[i]))
  }

  /** What the first `n` lines contribute to section `name`: each content line it owns, dedented (`ds`). */
  function SectionUpTo(ks: seq<Kind>, ds: seq<string>, name: string, n: nat): seq<string>
    requires |ks| == |ds| && n <= |ds|
  {
    if n == 0 then []
    else
      SectionUpTo(ks, ds, name, n - 1) +
      (if ks[n - 1].Content? && Owner(ks, n - 1) == Some(name) then [ds[n - 1]] else [])
  }

  /** The lines of section `name`: content lines it owns, before the first END line. */
  function Section(lines: seq<string>, name: string): seq<string> {
    var ks := Kinds(lines);
    SectionUpTo(ks, Dedents(lines), name, StopAt(ks))
  }

  /** The line loop of `parse_body`, with `current` and the three `sections` lists. */
  method CollectSections(lines: seq<string>) returns (sections: map<string, seq<string>>)
    ensures sections == Sections(lines)
  {
    sections := SectionLoop(lines, Kinds(lines), Dedents(lines));
  }

  /** The three sections of a body. */
  function Sections(lines: seq<string>): (m: map<string, seq<string>>)
    ensures m.Keys == Names
    ensures forall name :: name in Names ==> m[name] == Section(lines, name)
  {
    map name | name in Names :: Section(lines, name)
  }

  /** `ks` holds the kind of every line. */
  ghost predicate KindsOfLines(lines: seq<string>, ks: seq<Kind>) {
    |ks| == |lines| && forall i {:trigger KindOf(lines[i])} :: 0 <= i < |lines| ==> ks[i] == KindOf(lines[i])
  }

  /** `ds` holds every line dedented. */
  ghost predicate DedentsOfLines(lines: seq<string>, ds: seq<string>) {
    |ds| == |lines| && forall i {:trigger Dedent(lines[i])} :: 0 <= i < |lines| ==> ds[i] == Dedent(lines[i])
  }

  /** The loop itself, with the kinds of the lines as a ghost reference for its invariants. */
  method SectionLoop(lines: seq<string>, ghost ks: seq<Kind>, ghost ds: seq<string>) returns (sections: map<string, seq<string>>)
    requires KindsOfLines(lines, ks) && DedentsOfLines(lines, ds)
    ensures sections.Keys == Names
    ensures forall name :: name in Names ==> sections[name] == SectionUpTo(ks, ds, name, StopAt(ks))
  {
    var current: Option<string> := None;
    sections := map["entry" := [], "mission" := [], "outcome" := []];
    var i := 0;
    while i < |lines|
      invariant i <= StopAt(ks)
      invariant current == Owner(ks, i)
      invariant current.Some? ==> current.value in Names
      invariant sections.Keys == Names
      invariant forall name :: name in Names ==> sections[name] == SectionUpTo(ks, ds, name, i)
    {
      var stop;
      stop, current, sections := Visit(lines, ks, ds, i, current, sections);
      if stop {
        break;
      }
      i := i + 1;
    }
    assert i == StopAt(ks);
  }

  lemma StopAtPast(ks: seq<Kind>, i: nat)
    requires i <= StopAt(ks) && i < |ks| && !ks[i].EndMark?
    ensures i < StopAt(ks)
  {
  }

  /** `(raw[2:] if raw.startswith("  ") else raw).rstrip()`. */
  method DedentLine(raw: string) returns (line: string)
    ensures line == Dedent(raw)
  {
    var rest := if |raw| >= 2 && raw[..2] == "  " then raw[2..] else raw;
    line := RStrip(rest);
  }

  /** The loop body for line `i`: whether it stops the loop, and the updated state. */
  method Visit(lines: seq<string>, ghost ks: seq<Kind>, ghost ds: seq<string>, i: nat,
               current: Option<string>, sections: map<string, seq<string>>)
    returns (stop: bool, current': Option<string>, sections': map<string, seq<string>>)
    requires KindsOfLines(lines, ks) && DedentsOfLines(lines, ds) && i < |lines| && i <= StopAt(ks)
    requires current == Owner(ks, i)
    requires current.Some? ==> current.value in Names
    requires sections.Keys == Names
    requires forall name :: name in Names ==> sections[name] == SectionUpTo(ks, ds, name, i)
    ensures stop <==> i == StopAt(ks)
    ensures stop ==> sections' == sections
    ensures !stop ==> current' == Owner(ks, i + 1) && i + 1 <= StopAt(ks)
    ensures current'.Some? ==> current'.value in Names
    ensures sections'.Keys == Names
    ensures !stop ==> forall name :: name in Names ==> sections'[name] == SectionUpTo(ks, ds, name, i + 1)
  {
    var raw := lines[i];
    var kind := KindOf(raw);
    assert kind == ks[i];
    stop, current', sections' := false, current, sections;
    if kind.EndMark? {
      stop := true;
      return;
    }
    StopAtPast(ks, i);
    var line := DedentLine(raw);
    current', sections' := Step(ks, ds, i, kind, line, current, sections);
  }

  /** One pass of the loop body for a line that is not an END line. */
  method Step(ghost ks: seq<Kind>, ghost ds: seq<string>, i: nat, kind: Kind, line: string,
              current: Option<string>, sections: map<string, seq<string>>)
    returns (current': Option<string>, sections': map<string, seq<string>>)
    requires |ks| == |ds| && i < |ds| && kind == ks[i] && line == ds[i] && !kind.EndMark?
    requires kind.Label? ==> kind.name in Names
    requires current == Owner(ks, i)
    requires current.Some? ==> current.value in Names
    requires sections.Keys == Names
    requires forall name :: name in Names ==> sections[name] == SectionUpTo(ks, ds, name, i)
    ensures current' == Owner(ks, i + 1)
    ensures current'.Some? ==> current'.value in Names
    ensures sections'.Keys == Names
    ensures forall name :: name in Names ==> sections'[name] == SectionUpTo(ks, ds, name, i + 1)
  {
    current', sections' := current, sections;
    if kind.Label? {
      current' := Some(kind.name);
    } else if current.Some? {
      sections' := sections[current.value := sections[current.value] + [line]];
    }
    forall name | name in Names
      ensures sections'[name] == SectionUpTo(ks, ds, name, i + 1)
    {
      SectionStep(ks, ds, name, i);
    }
  }

  lemma SectionStep(ks: seq<Kind>, ds: seq<string>, name: string, n: nat)
    requires |ks| == |ds| && n < |ds|
    ensures SectionUpTo(ks, ds, name, n + 1) ==
      SectionUpTo(ks, ds, name, n) + (if ks[n].Content? && Owner(ks, n) == Some(name) then [ds[n]] else [])
  {
  }

  /** `{k: "\n".join(v).strip() for k, v in sections.items()}`. */
  function JoinAll(sections: map<string, seq<string>>): (body: map<string, string>)
    ensures body.Keys == sections.Keys
    ensures forall name :: name in sections ==> body[name] == Strip(Join(sections[name], "\n"))
  {
    map name | name in sections :: Strip(Join(sections[name], "\n"))
  }

  /** The body `parse_body` returns for the lines after the BEGIN match. */
  function Body(lines: seq<string>): (body: map<string, string>)
    ensures body.Keys == Names
  {
    JoinAll(Sections(lines))
  }

  /**
   * A section holds exactly the dedented content lines that some label of its
   * name owns, before the first END line: label lines are never content and
   * lines before the first label belong to no section.
   */
  lemma {:induction false} SectionMembers(ks: seq<Kind>, ds: seq<string>, name: string, n: nat, x: string)
    requires |ks| == |ds| && n <= |ds|
    ensures x in SectionUpTo(ks, ds, name, n) <==>
      exists t :: 0 <= t < n && ks[t].Content? && Owner(ks, t) == Some(name) && x == ds[t]
  {
    if n > 0 {
      SectionMembers(ks, ds, name, n - 1, x);
    }
  }

  /** Sections only grow: a repeated label appends to its section and never resets it. */
  lemma {:induction false} SectionGrows(ks: seq<Kind>, ds: seq<string>, name: string, n: nat, m: nat)
    requires |ks| == |ds| && n <= m <= |ds|
    ensures |SectionUpTo(ks, ds, name, n)| <= |SectionUpTo(ks, ds, name, m)|
    ensures SectionUpTo(ks, ds, name, m)[..|SectionUpTo(ks, ds, name, n)|] == SectionUpTo(ks, ds, name, n)
    decreases m - n
  {
    if n < m {
      SectionGrows(ks, ds, name, n, m - 1);
    }
  }

  /** Before the first label line no line is owned, so every section is still empty. */
  lemma {:induction false} NoLabelYet(ks: seq<Kind>, ds: seq<string>, name: string, n: nat)
    requires |ks| == |ds| && n <= |ds|
    requires forall t :: 0 <= t < n ==> !ks[t].Label?
    ensures Owner(ks, n) == None && SectionUpTo(ks, ds, name, n) == []
  {
    if n > 0 {
      NoLabelYet(ks, ds, name, n - 1);
    }
  }

  lemma KindsAppend(a: seq<string>, b: seq<string>)
    ensures Kinds(a + b) == Kinds(a) + Kinds(b)
  {
    var l := Kinds(a + b);
    var r := Kinds(a) + Kinds(b);
    forall i | 0 <= i < |l|
      ensures l[i] == r[i]
    {
      if i < |a| {
        assert l[i] == r[i] by {
          assert (a + b)[i] == a[i];
          assert l[i] == KindOf((a + b)[i]) && r[i] == KindOf(a[i]);
        }
      } else {
        assert l[i] == r[i] by {
          assert (a + b)[i] == b[i - |a|];
          assert l[i] == KindOf((a + b)[i]) && r[i] == KindOf(b[i - |a|]);
        }
      }
    }
  }

  lemma {:induction false} StopAtAppend(ks: seq<Kind>, more: seq<Kind>)
    requires StopAt(ks) < |ks|
    ensures StopAt(ks + more) == StopAt(ks)
  {
    if !ks[0].EndMark? {
      assert (ks + more)[1..] == ks[1..] + more;
      StopAtAppend(ks[1..], more);
    }
  }

  lemma {:induction false} OwnerAppend(ks: seq<Kind>, more: seq<Kind>, n: nat)
    requires n <= |ks|
    ensures Owner(ks + more, n) == Owner(ks, n)
  {
    if n > 0 {
      assert (ks + more)[n - 1] == ks[n - 1];
      OwnerAppend(ks, more, n - 1);
    }
  }

  lemma {:induction false} SectionAppend(ks: seq<Kind>, ds: seq<string>, more: seq<Kind>, rest: seq<string>, name: string, n: nat)
    requires |ks| == |ds| && |more| == |rest| && n <= |ds|
    ensures SectionUpTo(ks + more, ds + rest, name, n) == SectionUpTo(ks, ds, name, n)
  {
    if n > 0 {
      assert (ks + more)[n - 1] == ks[n - 1];
      assert (ds + rest)[n - 1] == ds[n - 1];
      OwnerAppend(ks, more, n - 1);
      SectionAppend(ks, ds, more, rest, name, n - 1);
    }
  }

  lemma DedentsAppend(a: seq<string>, b: seq<string>)
    ensures Dedents(a + b) == Dedents(a) + Dedents(b)
  {
    var l := Dedents(a + b);
    var r := Dedents(a) + Dedents(b);
    forall i | 0 <= i < |l|
      ensures l[i] == r[i]
    {
      if i < |a| {
        assert (a + b)[i] == a[i];
        assert Dedent((a + b)[i]) == Dedent(a[i]);
      } else {
        assert (a + b)[i] == b[i - |a|];
        assert Dedent((a + b)[i]) == Dedent(b[i - |a|]);
      }
    }
  }

  /** The loop stops at the first END line: whatever follows it changes no section. */
  lemma SectionIgnoresRest(lines: seq<string>, rest: seq<string>, name: string)
    requires StopAt(Kinds(lines)) < |lines|
    ensures Section(lines + rest, name) == Section(lines, name)
  {
    KindsAppend(lines, rest);
    DedentsAppend(lines, rest);
    StopAtAppend(Kinds(lines), Kinds(rest));
    SectionAppend(Kinds(lines), Dedents(lines), Kinds(rest), Dedents(rest), name, StopAt(Kinds(lines)));
  }

  /** Exactly one two-space indent is removed: a deeper indent keeps its extra spaces. */
  lemma DedentOnce(x: string)
    ensures Dedent("  " + x) == RStrip(x)
    ensures Dedent("    " + x) == RStrip("  " + x)
  {
    assert ("  " + x)[2..] == x;
    assert ("    " + x)[2..] == "  " + x;
  }

  /** A line without the two-space indent is only right-stripped. */
  lemma DedentUnindented(raw: string)
    requires !StartsWith(raw, "  ")
    ensures Dedent(raw) == RStrip(raw)
  {
  }

  /**
   * The final strip removes blank lines only at the ends of a section: when
   * its first and last lines start and end with visible characters, the
   * section is the plain join, interior blank lines included.
   */
  lemma JoinKeepsInterior(xs: seq<string>)
    requires |xs| > 0 && xs[0] != "" && xs[|xs| - 1] != ""
    requires !IsSpace(xs[0][0]) && !IsSpace(xs[|xs| - 1][|xs[|xs| - 1]| - 1])
    ensures Strip(Join(xs, "\n")) == Join(xs, "\n")
  {
    JoinHead(xs, "\n");
    JoinLast(xs, "\n");
    StripNoop(Join(xs, "\n"));
  }

  /**
   * A block wrapped in a fence line and a closing fence loses exactly those two
   * lines: for `"```" + tag + "\n" + body + "\n```"` the unfenced text is `body`.
   */
  lemma UnfenceFenced(tag: string, body: string)
    requires '\n' !in tag
    ensures Unfence(Fence + tag + "\n" + body + "\n" + Fence) == body
  {
    assert !IsSpace(Fence[0]) && !IsSpace(Fence[2]) && '\n' !in Fence;
    UnwrapFenced(Fence, tag, body);
  }

  lemma UnwrapFenced(f: string, tag: string, body: string)
    requires f != [] && !IsSpace(f[0]) && !IsSpace(f[|f| - 1]) && '\n' !in f && '\n' !in tag
    ensures Unwrap(f + tag + "\n" + body + "\n" + f, f) == body
  {
    UnwrapFencedLines(f, tag, body);
    JoinSplit(body, '\n');
  }

  lemma UnwrapFencedLines(f: string, tag: string, body: string)
    requires f != [] && !IsSpace(f[0]) && !IsSpace(f[|f| - 1]) && '\n' !in f && '\n' !in tag
    ensures Unwrap(f + tag + "\n" + body + "\n" + f, f) == Join(Split(body, '\n'), "\n")
  {
    FencedFacts(f, tag, body);
    UnwrapOf(f + tag + "\n" + body + "\n" + f, f, [f + tag] + Split(body, '\n') + [f]);
  }

  /** What `UnwrapOf` needs to know about a fenced text. */
  lemma FencedFacts(f: string, tag: string, body: string)
    requires f != [] && !IsSpace(f[0]) && !IsSpace(f[|f| - 1]) && '\n' !in f && '\n' !in tag
    ensures var block := f + tag + "\n" + body + "\n" + f;
      var all := [f + tag] + Split(body, '\n') + [f];
      Strip(block) == block && StartsWith(block, f) &&
      SplitLines(block) == all && |all| >= 2 && StartsWith(Strip(all[|all| - 1]), f) &&
      all[1..|all| - 1] == Split(body, '\n')
  {
    FencedEdges(f, tag, body);
    FencedLines(f, tag, body);
    FencedTail(f, tag, body);
  }

  /** The last of the lines `f + tag`, the body's lines and `f` is a fence, and the body's lines sit between. */
  lemma FencedTail(f: string, tag: string, body: string)
    requires f != [] && !IsSpace(f[0]) && !IsSpace(f[|f| - 1])
    ensures var all := [f + tag] + Split(body, '\n') + [f];
      StartsWith(Strip(all[|all| - 1]), f) && all[1..|all| - 1] == Split(body, '\n')
  {
    var all := [f + tag] + Split(body, '\n') + [f];
    assert all[|all| - 1] == f;
    StripNoop(f);
    assert all[1..|all| - 1] == Split(body, '\n');
  }

  /** A stripped block that starts with the fence and whose last line is a fence loses its first and last lines. */
  lemma UnwrapOf(block: string, f: string, all: seq<string>)
    requires Strip(block) == block && StartsWith(block, f)
    requires SplitLines(block) == all && |all| >= 2 && StartsWith(Strip(all[|all| - 1]), f)
    ensures Unwrap(block, f) == Join(all[1..|all| - 1], "\n")
  {
    var lines := all[1..];
    assert lines[|lines| - 1] == all[|all| - 1];
    assert lines[..|lines| - 1] == all[1..|all| - 1];
  }

  /** A text opened and closed by the one-line marker `f` is stripped and starts with `f`. */
  lemma FencedEdges(f: string, tag: string, body: string)
    requires f != [] && !IsSpace(f[0]) && !IsSpace(f[|f| - 1])
    ensures var block := f + tag + "\n" + body + "\n" + f;
      Strip(block) == block && StartsWith(block, f)
  {
    var block := f + tag + "\n" + body + "\n" + f;
    assert block[0] == f[0] && block[|block| - 1] == f[|f| - 1];
    StripNoop(block);
    assert block[..|f|] == f;
  }

  /** The lines of a text opened and closed by the one-line marker `f`. */
  lemma FencedLines(f: string, tag: string, body: string)
    requires f != [] && '\n' !in f && '\n' !in tag
    ensures SplitLines(f + tag + "\n" + body + "\n" + f) == [f + tag] + Split(body, '\n') + [f]
  {
    var a := f + tag;
    var block := f + tag + "\n" + body + "\n" + f;
    assert block == a + ['\n'] + (body + ['\n'] + f);
    var parts := Split(block, '\n');
    assert parts == [a] + (Split(body, '\n') + [f]) by {
      SplitAppend(a, '\n', body + ['\n'] + f);
      SplitAppend(body, '\n', f);
      SplitSingle(a, '\n');
      SplitSingle(f, '\n');
    }
    assert parts[|parts| - 1] == f;
    assert SplitLines(block) == parts;
  }

  // ----- parse_begin_kvs ----------------------------------------------------

  predicate IsKeyChar(c: char) { IsLetter(c) || c == '_' || c == '-' }

  /** A key `KV_RE` accepts: `[A-Za-z][A-Za-z_-]*`. */
  predicate IsKey(k: string) {
    k != [] && IsLetter(k[0]) && forall i :: 0 <= i < |k| ==> IsKeyChar(k[i])
  }

  function KeyRun(s: string): (n: nat)
    ensures n <= |s|
    ensures forall i :: 0 <= i < n ==> IsKeyChar(s[i])
    ensures n < |s| ==> !IsKeyChar(s[n])
  {
    if s != [] && IsKeyChar(s[0]) then 1 + KeyRun(s[1..]) else 0
  }

  /**
   * `KV_RE` tried at position `p`: the key, the value and where the match ends.
   * Both runs are greedy and giving characters back never helps, since the key
   * must be followed by '=' and the value by nothing in particular.
   */
  function KvAt(s: string, p: nat): (r: Option<(string, string, nat)>)
    ensures r.Some? ==> p < r.value.2 <= |s| && IsKey(r.value.0) && r.value.1 != "" && NoSpace(r.value.1)
  {
    if p < |s| && IsLetter(s[p]) then
      var q := p + 1 + KeyRun(s[p + 1..]);
      if q < |s| && s[q] == '=' then
        var m := NonSpaceRun(s[q + 1..]);
        if m > 0 then
          KeyPart(s, p);
          ValuePart(s, q);
          Some((s[p..q], s[q + 1..q + 1 + m], q + 1 + m))
        else None
      else None
    else None
  }

  /** The key run that starts at a letter is a key. */
  lemma KeyPart(s: string, p: nat)
    requires p < |s| && IsLetter(s[p])
    ensures p + 1 + KeyRun(s[p + 1..]) <= |s| && IsKey(s[p..p + 1 + KeyRun(s[p + 1..])])
  {
    var n := KeyRun(s[p + 1..]);
    var k := s[p..p + 1 + n];
    forall i | 0 <= i < |k|
      ensures IsKeyChar(k[i])
    {
      if i > 0 {
        assert k[i] == s[p + 1..][i - 1];
      }
    }
  }

  /** The non-space run after '=' holds no whitespace. */
  lemma ValuePart(s: string, q: nat)
    requires q < |s|
    ensures q + 1 + NonSpaceRun(s[q + 1..]) <= |s| && NoSpace(s[q + 1..q + 1 + NonSpaceRun(s[q + 1..])])
  {
    var m := NonSpaceRun(s[q + 1..]);
    var v := s[q + 1..q + 1 + m];
    forall i | 0 <= i < |v|
      ensures !IsSpace(v[i])
    {
      assert v[i] == s[q + 1..][i];
    }
  }

  /** The text a match covers is `key=value`. */
  lemma KvAtText(s: string, p: nat)
    ensures KvAt(s, p).Some? ==> s[p..KvAt(s, p).value.2] == KvAt(s, p).value.0 + "=" + KvAt(s, p).value.1
  {
    if KvAt(s, p).Some? {
      var q := p + 1 + KeyRun(s[p + 1..]);
      SliceAround(s, p, q, KvAt(s, p).value.2);
    }
  }

  lemma SliceAround(s: string, p: nat, q: nat, e: nat)
    requires p <= q < e <= |s| && s[q] == '='
    ensures s[p..e] == s[p..q] + "=" + s[q + 1..e]
  {
    assert s[p..e] == s[p..q] + s[q..q + 1] + s[q + 1..e];
  }

  /** `KV_RE.findall(s[p:])`: the `(key, value)` pairs of the non-overlapping matches, in order. */
  function KvMatches(s: string, p: nat): (r: seq<(string, string)>)
    ensures forall i :: 0 <= i < |r| ==> IsKey(r[i].0) && r[i].1 != "" && NoSpace(r[i].1)
    decreases |s| - p
  {
    if p >= |s| then []
    else match KvAt(s, p)
      case Some((k, v, e)) => [(k, v)] + KvMatches(s, e)
      case None => KvMatches(s, p + 1)
  }

  /** Each pair as an assignment, in the form the dictionary fold of the reference parser takes. */
  function AsBindings(ps: seq<(string, string)>): (bs: seq<Option<(string, string)>>)
    ensures |bs| == |ps|
    ensures forall i :: 0 <= i < |ps| ==> bs[i] == Some(ps[i])
  {
    seq(|ps|, i requires 0 <= i < |ps| => Some(ps[i]))
  }

  /** What `parse_begin_kvs(s)` returns. */
  function BeginKvs(s: string): LlmlogParse.Header {
    var m := LlmlogParse.Collect(AsBindings(KvMatches(s, 0)));
    var h := LlmlogParse.AsStrings(m);
    if "tags" in m then h["tags" := List(NormalisedTags(m["tags"]))] else h
  }

  /** `parse_begin_kvs`: the `findall` loop filling `kvs`, then the tags normalisation. */
  method ParseBeginKvs(s: string) returns (kvs: LlmlogParse.Header)
    ensures kvs == BeginKvs(s)
  {
    var pairs := KvMatches(s, 0);
    ghost var bs := AsBindings(pairs);
    var m: map<string, string> := map[];
    for i := 0 to |pairs|
      invariant m == LlmlogParse.Collect(bs[..i])
    {
      assert bs[..i + 1][..i] == bs[..i];
      m := m[pairs[i].0 := pairs[i].1];
    }
    assert bs[..|pairs|] == bs;
    kvs := LlmlogParse.AsStrings(m);
    if "tags" in m {
      var norm := NormaliseTags(m["tags"]);
      kvs := kvs["tags" := List(norm)];
    }
  }

  /** Text without '=' holds no `key=value` pair: bare words such as `IGNORE_META` contribute nothing. */
  lemma {:induction false} NoEqualsNoPairs(s: string, p: nat)
    requires forall i :: p <= i < |s| ==> s[i] != '='
    ensures KvMatches(s, p) == []
    decreases |s| - p
  {
    if p < |s| {
      NoEqualsNoPairs(s, p + 1);
    }
  }

  /**
   * A key is present exactly when some match has it; every key has the shape
   * `KV_RE` demands; the last match with a key gives its value, kept as it is
   * for every key but `tags` (`tag` included), normalised for `tags`.
   */
  lemma BeginKvsKeys(s: string, k: string)
    ensures k in BeginKvs(s) <==> exists i :: 0 <= i < |KvMatches(s, 0)| && KvMatches(s, 0)[i].0 == k
  {
    PairKeys(KvMatches(s, 0), k);
    BeginKvsDomain(s);
  }

  lemma BeginKvsDomain(s: string)
    ensures BeginKvs(s).Keys == LlmlogParse.Collect(AsBindings(KvMatches(s, 0))).Keys
  {
  }

  lemma BeginKvsKeyShape(s: string, k: string)
    requires k in BeginKvs(s)
    ensures IsKey(k)
  {
    BeginKvsKeys(s, k);
    var ps := KvMatches(s, 0);
    var i :| 0 <= i < |ps| && ps[i].0 == k;
  }

  /** The fold over the pairs has exactly the pairs' keys. */
  lemma PairKeys(ps: seq<(string, string)>, k: string)
    ensures k in LlmlogParse.Collect(AsBindings(ps)) <==> exists i :: 0 <= i < |ps| && ps[i].0 == k
  {
    var bs := AsBindings(ps);
    LlmlogParse.CollectKeys(bs, k);
    if exists i :: 0 <= i < |bs| && LlmlogParse.Assigns(bs[i], k) {
      var i :| 0 <= i < |bs| && LlmlogParse.Assigns(bs[i], k);
      assert ps[i].0 == k;
    }
    if exists i :: 0 <= i < |ps| && ps[i].0 == k {
      var i :| 0 <= i < |ps| && ps[i].0 == k;
      assert LlmlogParse.Assigns(bs[i], k);
    }
  }

  lemma BeginKvsLastWins(s: string, k: string, i: nat)
    requires i < |KvMatches(s, 0)| && KvMatches(s, 0)[i].0 == k
    requires forall j :: i < j < |KvMatches(s, 0)| ==> KvMatches(s, 0)[j].0 != k
    ensures k in BeginKvs(s)
    ensures k != "tags" ==> BeginKvs(s)[k] == Str(KvMatches(s, 0)[i].1)
    ensures k == "tags" ==> BeginKvs(s)[k] == List(NormalisedTags(KvMatches(s, 0)[i].1))
  {
    var ps := KvMatches(s, 0);
    var bs := AsBindings(ps);
    forall j | i < j < |bs|
      ensures !LlmlogParse.Assigns(bs[j], k)
    {
      assert bs[j] == Some(ps[j]);
    }
    LlmlogParse.CollectLastWins(bs, k, i);
  }

  // ----- parse_body ---------------------------------------------------------

  /** What `parse_body` returns: the BEGIN line, its pairs and the three sections. */
  datatype Parsed = Parsed(beginLine: string, kvs: LlmlogParse.Header, body: map<string, string>)

  /** `parse_body(block)`, with its `ValueError` as `Err`. */
  function ParsedBody(block: string): Result<Parsed, string> {
    var text := Unfence(block);
    match SearchBegin(text, 0)
    case None => Err("BEGIN line not found")
    case Some(mb) =>
      Ok(Parsed(text[mb.start..mb.stop], BeginKvs(text[mb.kvs..mb.stop]), Body(SplitLines(text[mb.stop..]))))
  }

  /** `parse_body`: fences, the BEGIN search, the header pairs and the section loop. */
  method ParseBody(block: string) returns (r: Result<Parsed, string>)
    ensures r == ParsedBody(block)
  {
    var text := Unfence(block);
    var mb := SearchBegin(text, 0);
    if mb.None? {
      return Err("BEGIN line not found");
    }
    var kvs := ParseBeginKvs(text[mb.value.kvs..mb.value.stop]);
    var lines := SplitLines(text[mb.value.stop..]);
    var sections := CollectSections(lines);
    var body := JoinAll(sections);
    r := Ok(Parsed(text[mb.value.start..mb.value.stop], kvs, body));
  }

  /**
   * `parse_body` fails exactly when no position of the unfenced block starts a
   * `BEGIN_RE` match; otherwise the body always has the three sections.
   */
  lemma ParsedBodyOutcome(block: string)
    ensures ParsedBody(block).Err? <==> forall t :: BeginAt(Unfence(block), t).None?
    ensures ParsedBody(block).Ok? ==> ParsedBody(block).value.body.Keys == Names
  {
    var text := Unfence(block);
    if SearchBegin(text, 0).Some? {
      assert BeginAt(text, SearchBegin(text, 0).value.start).Some?;
    }
  }

  // ----- records_from_conversation ------------------------------------------

  /** One output row; the fields of the CSV in order. */
  datatype Row = Row(
    conversationId: string, conversationTitle: string, project: string, org: string, orgKey: string,
    date: string, tags: string, entry: string, mission: string, outcome: string, beginLine: string)

  /** `kvs.get(k, "")` for a key whose value is a string. */
  function Field(kvs: LlmlogParse.Header, k: string): string {
    if k in kvs && kvs[k].Str? then kvs[k].s else ""
  }

  /** `org_key`: `organisation` when present, else `organization` when present, else none (""). */
  function OrgKey(kvs: LlmlogParse.Header): (key: string)
    ensures key == "organisation" <==> "organisation" in kvs
    ensures key == "organization" <==> "organisation" !in kvs && "organization" in kvs
    ensures key == "" <==> "organisation" !in kvs && "organization" !in kvs
  {
    if "organisation" in kvs then "organisation"
    else if "organization" in kvs then "organization"
    else ""
  }

  /** `",".join(kvs.get("tags", []))`. */
  function TagsField(kvs: LlmlogParse.Header): string {
    if "tags" in kvs && kvs["tags"].List? then Join(kvs["tags"].items, ",") else ""
  }

  function BodyField(body: map<string, string>, k: string): string {
    if k in body then body[k] else ""
  }

  /** The record dict built for one parsed block. */
  function RowOf(cid: string, title: string, p: Parsed): Row {
    var key := OrgKey(p.kvs);
    Row(cid, title, Field(p.kvs, "project"), if key == "" then "" else Field(p.kvs, key), key,
      Field(p.kvs, "date"), TagsField(p.kvs), BodyField(p.body, "entry"), BodyField(p.body, "mission"),
      BodyField(p.body, "outcome"), Strip(p.beginLine))
  }

  /** What `parse_body` makes of each block. */
  function Outcomes(blocks: seq<string>): (rs: seq<Result<Parsed, string>>)
    ensures |rs| == |blocks|
    ensures forall i :: 0 <= i < |blocks| ==> rs[i] == ParsedBody(blocks[i])
  {
    seq(|blocks|, i requires 0 <= i < |blocks| => ParsedBody(blocks[i]))
  }

  /** The rows for a list of outcomes: one per block that parsed, in order. */
  function RowsOf(cid: string, title: string, rs: seq<Result<Parsed, string>>): (rows: seq<Row>)
    ensures |rows| <= |rs|
  {
    if rs == [] then []
    else RowsOf(cid, title, rs[..|rs| - 1]) + RowsOfOne(cid, title, rs[|rs| - 1])
  }

  /** The row of one block: one when it parsed, none when it did not. */
  function RowsOfOne(cid: string, title: string, r: Result<Parsed, string>): seq<Row> {
    match r
    case Ok(p) => [RowOf(cid, title, p)]
    case Err(_) => []
  }

  lemma RowsSnoc(cid: string, title: string, rs: seq<Result<Parsed, string>>, r: Result<Parsed, string>)
    ensures RowsOf(cid, title, rs + [r]) == RowsOf(cid, title, rs) + RowsOfOne(cid, title, r)
  {
    assert (rs + [r])[..|rs|] == rs;
  }

  function Rows(cid: string, title: string, blocks: seq<string>): (rows: seq<Row>)
    ensures |rows| <= |blocks|
  {
    RowsOf(cid, title, Outcomes(blocks))
  }

  /** `records_from_conversation` over the blocks of one conversation: a block that raises is skipped. */
  method RecordsFromBlocks(cid: string, title: string, blocks: seq<string>) returns (recs: seq<Row>)
    ensures recs == Rows(cid, title, blocks)
  {
    ghost var rs := Outcomes(blocks);
    recs := [];
    for i := 0 to |blocks|
      invariant recs == RowsOf(cid, title, rs[..i])
    {
      var r := ParseBody(blocks[i]);
      RowsOfStep(cid, title, rs, i);
      if r.Err? {
        continue;
      }
      recs := recs + [RowOf(cid, title, r.value)];
    }
    assert rs[..|blocks|] == rs;
  }

  /** One more outcome: its row, if it parsed, goes after the rows before it. */
  lemma RowsOfStep(cid: string, title: string, rs: seq<Result<Parsed, string>>, i: nat)
    requires i < |rs|
    ensures RowsOf(cid, title, rs[..i + 1]) ==
      RowsOf(cid, title, rs[..i]) + (if rs[i].Ok? then [RowOf(cid, title, rs[i].value)] else [])
  {
    assert rs[..i + 1][..i] == rs[..i];
    assert rs[..i + 1][i] == rs[i];
  }

  /** Rows distribute over concatenation: each block is handled on its own and a failure stops nothing. */
  lemma {:induction false} RowsAppend(cid: string, title: string, a: seq<Result<Parsed, string>>, b: seq<Result<Parsed, string>>)
    ensures RowsOf(cid, title, a + b) == RowsOf(cid, title, a) + RowsOf(cid, title, b)
    decreases |b|
  {
    if b == [] {
      assert a + b == a;
    } else {
      var b0 := b[..|b| - 1];
      var last := b[|b| - 1];
      assert b == b0 + [last];
      assert a + b == (a + b0) + [last];
      var x := RowsOf(cid, title, a);
      var y := RowsOf(cid, title, b0);
      var o := RowsOfOne(cid, title, last);
      assert RowsOf(cid, title, a + b) == (x + y) + o by {
        RowsSnoc(cid, title, a + b0, last);
        RowsAppend(cid, title, a, b0);
      }
      assert RowsOf(cid, title, b) == y + o by {
        RowsSnoc(cid, title, b0, last);
      }
      assert (x + y) + o == x + (y + o);
    }
  }

  lemma OutcomesAppend(a: seq<string>, b: seq<string>)
    ensures Outcomes(a + b) == Outcomes(a) + Outcomes(b)
  {
    var l := Outcomes(a + b);
    var r := Outcomes(a) + Outcomes(b);
    forall i | 0 <= i < |l|
      ensures l[i] == r[i]
    {
      if i < |a| {
        OutcomeAt(a + b, i, a[i]);
        OutcomeAt(a, i, a[i]);
        assert r[i] == Outcomes(a)[i];
      } else {
        OutcomeAt(a + b, i, b[i - |a|]);
        OutcomeAt(b, i - |a|, b[i - |a|]);
        assert r[i] == Outcomes(b)[i - |a|];
      }
    }
  }

  lemma OutcomeAt(blocks: seq<string>, i: nat, x: string)
    requires i < |blocks| && blocks[i] == x
    ensures Outcomes(blocks)[i] == ParsedBody(x)
  {
  }

  /** The rows of two lists of blocks are the rows of each, one after the other. */
  lemma RowsConcat(cid: string, title: string, a: seq<string>, b: seq<string>)
    ensures Rows(cid, title, a + b) == Rows(cid, title, a) + Rows(cid, title, b)
  {
    OutcomesAppend(a, b);
    RowsAppend(cid, title, Outcomes(a), Outcomes(b));
  }

  /** One block gives one row when it parses and none when it raises. */
  lemma RowsSingle(cid: string, title: string, block: string)
    ensures ParsedBody(block).Ok? ==> Rows(cid, title, [block]) == [RowOf(cid, title, ParsedBody(block).value)]
    ensures ParsedBody(block).Err? ==> Rows(cid, title, [block]) == []
  {
    var rs := Outcomes([block]);
    assert rs[..0] == [];
  }

  /** `org` and `org_key` never look at `starship`. */
  lemma OrgIgnoresStarship(cid: string, title: string, p: Parsed, v: Value)
    ensures var q := p.(kvs := p.kvs["starship" := v]);
      RowOf(cid, title, q).org == RowOf(cid, title, p).org && RowOf(cid, title, q).orgKey == RowOf(cid, title, p).orgKey
  {
  }
}
