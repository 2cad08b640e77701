/**
 * tools/llmlog_parse.py: the reference parser. `parse_kv` turns a BEGIN line's
 * header into a mapping, `extract_blocks` pairs BEGIN and END markers and
 * yields one record per paired block, and `grab` pulls the three labelled
 * sections out of a block's body.
 */
module LlmlogParse {
  import opened Wrappers
  import opened Text
  import opened Tags
  import opened Markers

  /** A parsed header or record: key to string or tag-list value. */
  type Header = map<string, Value>

  // ----- parse_kv -----------------------------------------------------------

  /** The `k` of `k, v = token.split("=", 1)`. */
  function KeyOf(token: string): string {
    token[..IndexOf(token, '=')]
  }

  /** The `v` of `k, v = token.split("=", 1)`. */
  function ValueOf(token: string): string
    requires '=' in token
  {
    var n := IndexOf(token, '=');
    token[n + 1..]
  }

  /** `split("=", 1)` cuts at the first '=': the key holds no '=', the value may. */
  lemma TokenSplit(token: string)
    requires '=' in token
    ensures KeyOf(token) + "=" + ValueOf(token) == token
    ensures '=' !in KeyOf(token)
  {
    var n := IndexOf(token, '=');
    assert token == token[..n] + [token[n]] + token[n + 1..];
  }

  /** What one token contributes: `(k.strip(), v.strip())` when it holds '=', nothing otherwise. */
  function Binding(t: string): Option<(string, string)> {
    if '=' in t then Some((Strip(KeyOf(t)), Strip(ValueOf(t)))) else None
  }

  /** The contributions of the tokens, in order. */
  function Bindings(tokens: seq<string>): (bs: seq<Option<(string, string)>>)
    ensures |bs| == |tokens|
    ensures forall i :: 0 <= i < |tokens| ==> bs[i] == Binding(tokens[i])
  {
    seq(|tokens|, i requires 0 <= i < |tokens| => Binding(tokens[i]))
  }

  /** Contribution `b` assigns key `k`. */
  predicate Assigns(b: Option<(string, string)>, k: string) {
    b.Some? && b.value.0 == k
  }

  /** The dictionary the token loop fills: later assignments overwrite earlier ones. */
  function Collect(bs: seq<Option<(string, string)>>): map<string, string> {
    if bs == [] then map[]
    else
      var m := Collect(bs[..|bs| - 1]);
      match bs[|bs| - 1]
      case Some((k, v)) => m[k := v]
      case None => m
  }

  /** A key is present exactly when some token assigns it. */
  lemma {:induction false} CollectKeys(bs: seq<Option<(string, string)>>, k: string)
    ensures k in Collect(bs) <==> exists i :: 0 <= i < |bs| && Assigns(bs[i], k)
  {
    if bs != [] {
      var p := bs[..|bs| - 1];
      CollectKeys(p, k);
      if exists i :: 0 <= i < |p| && Assigns(p[i], k) {
        var i :| 0 <= i < |p| && Assigns(p[i], k);
        assert bs[i] == p[i];
      }
      if exists i :: 0 <= i < |bs| && Assigns(bs[i], k) {
        var i :| 0 <= i < |bs| && Assigns(bs[i], k);
        if i < |p| {
          assert p[i] == bs[i];
        }
      }
    }
  }

  /** The last token that assigns a key decides its value. */
  lemma {:induction false} CollectLastWins(bs: seq<Option<(string, string)>>, k: string, i: nat)
    requires i < |bs| && Assigns(bs[i], k)
    requires forall j :: i < j < |bs| ==> !Assigns(bs[j], k)
    ensures k in Collect(bs) && Collect(bs)[k] == bs[i].value.1
  {
    var p := bs[..|bs| - 1];
    if i < |bs| - 1 {
      forall j | i < j < |p|
        ensures !Assigns(p[j], k)
      {
        assert p[j] == bs[j];
      }
      CollectLastWins(p, k, i);
    }
  }

  /**
   * The spelling and legacy normalisation: when `organisation` is absent,
   * `organization` is renamed to it, and failing that `starship` is.
   */
  function ResolveAliases(m: map<string, string>): (r: map<string, string>)
    ensures "organisation" in m ==> r == m
    ensures "organisation" !in m && "organization" in m ==>
      r == (m - {"organization"})["organisation" := m["organization"]]
    ensures "organisation" !in m && "organization" !in m && "starship" in m ==>
      r == (m - {"starship"})["organisation" := m["starship"]]
    ensures "organisation" in r <==> "organisation" in m || "organization" in m || "starship" in m
    ensures forall k :: k in r && k != "organisation" ==> k in m && r[k] == m[k]
    ensures forall k :: k in m && k != "organization" && k != "starship" ==> k in r && r[k] == m[k]
  {
    if "organisation" in m then m
    else
      var m1 := if "organization" in m then (m - {"organization"})["organisation" := m["organization"]] else m;
      if "starship" in m1 && "organisation" !in m1 then (m1 - {"starship"})["organisation" := m1["starship"]] else m1
  }

  /** `out.get("tags") or out.get("tag")`: an empty `tags` falls through to `tag`. */
  function TagSource(m: map<string, string>): Option<string> {
    if "tags" in m && m["tags"] != "" then Some(m["tags"])
    else if "tag" in m then Some(m["tag"])
    else None
  }

  /** Every value as a string. */
  function AsStrings(m: map<string, string>): (h: Header)
    ensures h.Keys == m.Keys
    ensures forall k :: k in m ==> h[k] == Str(m[k])
  {
    map k | k in m :: Str(m[k])
  }

  /** The tags normalisation: a non-empty tag string becomes the `tags` list and `tag` goes away. */
  function ResolveTags(m: map<string, string>): (h: Header)
    ensures (TagSource(m).Some? && TagSource(m).value != "") ==>
      h == (AsStrings(m) - {"tag"})["tags" := List(NormalisedTags(TagSource(m).value))]
    ensures !(TagSource(m).Some? && TagSource(m).value != "") ==> h == AsStrings(m)
    ensures forall k :: k != "tags" && k != "tag" ==> (k in h <==> k in m) && (k in m ==> h[k] == Str(m[k]))
  {
    match TagSource(m)
    case Some(src) =>
      if src != "" then (AsStrings(m) - {"tag"})["tags" := List(NormalisedTags(src))] else AsStrings(m)
    case None => AsStrings(m)
  }

  /** What `parse_kv(s)` returns. */
  function ParsedKv(s: string): Header {
    ResolveTags(ResolveAliases(Collect(Bindings(Words(Strip(s))))))
  }

  /** `parse_kv`: the token loop, the alias fix-ups and the tags normalisation. */
  method ParseKv(s: string) returns (out: Header)
    ensures out == ParsedKv(s)
  {
    var m := CollectTokens(Words(Strip(s)));
    ghost var collected := m;
    if "organisation" !in m {
      if "organization" in m {
        var v := m["organization"];
        m := (m - {"organization"})["organisation" := v];
      }
      if "starship" in m && "organisation" !in m {
        var v := m["starship"];
        m := (m - {"starship"})["organisation" := v];
      }
    }
    assert m == ResolveAliases(collected);
    out := AsStrings(m);
    var tagsStr := if "tags" in m && m["tags"] != "" then Some(m["tags"])
                   else if "tag" in m then Some(m["tag"]) else None;
    assert tagsStr == TagSource(m);
    if tagsStr.Some? && tagsStr.value != "" {
      var tags := NormaliseTags(tagsStr.value);
      out := (out - {"tag"})["tags" := List(tags)];
    }
  }

  /** The token loop of `parse_kv`. */
  method CollectTokens(tokens: seq<string>) returns (m: map<string, string>)
    ensures m == Collect(Bindings(tokens))
  {
    m := map[];
    var i := 0;
    while i < |tokens|
      invariant 0 <= i <= |tokens|
      invariant m == Collect(Bindings(tokens)[..i])
    {
      var token := tokens[i];
      assert Bindings(tokens)[..i + 1][..i] == Bindings(tokens)[..i];
      if '=' in token {
        m := m[Strip(KeyOf(token)) := Strip(ValueOf(token))];
      }
      i := i + 1;
    }
    assert Bindings(tokens)[..i] == Bindings(tokens);
  }

  /** The keys `parse_kv` rewrites; every other key passes through verbatim. */
  predicate IsPlainKey(k: string) {
    k != "organisation" && k != "organization" && k != "starship" && k != "tags" && k != "tag"
  }

  /** The fix-ups leave every plain key and its value alone. */
  lemma FixupsKeepPlainKey(m: map<string, string>, k: string)
    requires IsPlainKey(k)
    ensures k in ResolveTags(ResolveAliases(m)) <==> k in m
    ensures k in m ==> ResolveTags(ResolveAliases(m))[k] == Str(m[k])
  {
  }

  /**
   * Unknown and ordinary keys are preserved as strings: such a key is in the
   * result exactly when a token assigns it, and the last such token gives its value.
   */
  lemma ParsedKvPlainKey(s: string, bs: seq<Option<(string, string)>>, k: string)
    requires bs == Bindings(Words(Strip(s))) && IsPlainKey(k)
    ensures k in ParsedKv(s) <==> exists i :: 0 <= i < |bs| && Assigns(bs[i], k)
    ensures forall i :: (0 <= i < |bs| && Assigns(bs[i], k) &&
      (forall j :: i < j < |bs| ==> !Assigns(bs[j], k))) ==>
      k in ParsedKv(s) && ParsedKv(s)[k] == Str(bs[i].value.1)
  {
    var m := Collect(bs);
    assert ParsedKv(s) == ResolveTags(ResolveAliases(m));
    FixupsKeepPlainKey(m, k);
    CollectKeys(bs, k);
    forall i | 0 <= i < |bs| && Assigns(bs[i], k) && (forall j :: i < j < |bs| ==> !Assigns(bs[j], k))
      ensures k in ParsedKv(s) && ParsedKv(s)[k] == Str(bs[i].value.1)
    {
      CollectLastWins(bs, k, i);
    }
  }

  /**
   * The organisation is never invented: it is present exactly when some token
   * assigns `organisation`, `organization` or `starship`.
   */
  lemma ParsedKvOrganisation(s: string, bs: seq<Option<(string, string)>>)
    requires bs == Bindings(Words(Strip(s)))
    ensures "organisation" in ParsedKv(s) <==>
      exists i :: 0 <= i < |bs| &&
        (Assigns(bs[i], "organisation") || Assigns(bs[i], "organization") || Assigns(bs[i], "starship"))
  {
    var m := Collect(bs);
    assert ParsedKv(s) == ResolveTags(ResolveAliases(m));
    CollectKeys(bs, "organisation");
    CollectKeys(bs, "organization");
    CollectKeys(bs, "starship");
  }

  /** A `key=value` token with an '='-free key and no whitespace binds the key to the value. */
  lemma BindingOfPair(k: string, v: string)
    requires '=' !in k && NoSpace(k) && NoSpace(v)
    ensures Binding(k + "=" + v) == Some((k, v))
  {
    var t := k + "=" + v;
    assert IndexOf(t, '=') == |k| by {
      assert t == k + ['='] + v;
      IndexOfSplit(k, '=', v);
    }
    assert KeyOf(t) == k by {
      assert t[..|k|] == k;
    }
    assert ValueOf(t) == v by {
      assert t[|k| + 1..] == v;
    }
    assert Strip(k) == k by {
      StripNoSpace(k);
    }
    assert Strip(v) == v by {
      StripNoSpace(v);
    }
  }

  /** One more token: its assignment, if any, goes on top of what came before. */
  lemma CollectSnoc(bs: seq<Option<(string, string)>>, b: Option<(string, string)>)
    ensures Collect(bs + [b]) == (match b case Some((k, v)) => Collect(bs)[k := v] case None => Collect(bs))
  {
    assert (bs + [b])[..|bs|] == bs;
  }

  /** A token that starts with '=' assigns the empty key. */
  lemma LeadingEquals(t: string)
    requires t != "" && t[0] == '=' && NoSpace(t)
    ensures Binding(t) == Some(("", t[1..]))
  {
    var v := t[1..];
    assert '=' in t && IndexOf(t, '=') == 0 by {
      assert t[0] in t;
    }
    assert KeyOf(t) == [] && ValueOf(t) == v;
    assert Strip([]) == [] by {
      StripNoop([]);
    }
    assert Strip(v) == v by {
      assert v == [] || (v[0] == t[1] && v[|v| - 1] == t[|t| - 1]);
      StripNoop(v);
    }
  }

  /** A header that is one token without whitespace splits into that token. */
  lemma SingleToken(t: string)
    requires t != "" && NoSpace(t)
    ensures Words(Strip(t)) == [t]
  {
    StripNoop(t);
    WordsSingle(t);
  }

  /** A header made of one token that starts with '=' is kept under the empty key. */
  lemma EmptyKey(t: string)
    requires t != "" && t[0] == '=' && NoSpace(t)
    ensures ParsedKv(t).Keys == {""} && ParsedKv(t)[""] == Str(t[1..])
  {
    SingleToken(t);
    LeadingEquals(t);
    BindingsSingle(t);
    var m := CollectSingle(("", t[1..]));
    FixupsIgnoreEmptyKey(m);
  }

  lemma BindingsSingle(t: string)
    ensures Bindings([t]) == [Binding(t)]
  {
  }

  lemma CollectSingle(b: (string, string)) returns (m: map<string, string>)
    ensures m == Collect([Some(b)])
    ensures m.Keys == {b.0} && m[b.0] == b.1
  {
    assert [Some(b)][..0] == [];
    m := Collect([Some(b)]);
  }

  lemma FixupsIgnoreEmptyKey(m: map<string, string>)
    requires m.Keys == {""}
    ensures ResolveTags(ResolveAliases(m)) == AsStrings(m)
  {
  }

  // ----- grab ---------------------------------------------------------------

  /** Length of the run of `\w` characters that starts `line`. */
  function WordRun(line: string): (n: nat)
    ensures n <= |line|
    ensures forall i :: 0 <= i < n ==> IsWordChar(line[i])
    ensures n < |line| ==> !IsWordChar(line[n])
  {
    if line != [] && IsWordChar(line[0]) then 1 + WordRun(line[1..]) else 0
  }

  /** `^\w+:`: the line starts with word characters and a colon. */
  predicate IsWordColonLine(line: string) {
    var n := WordRun(line);
    0 < n < |line| && line[n] == ':'
  }

  /** `^name:\s*` up to the end of the line: the name, a colon, then only whitespace. */
  predicate IsLabelLine(line: string, name: string) {
    StartsWith(line, name + ":") && AllSpace(line[|name| + 1..])
  }

  /**
   * Where the value starts after the name line: `\s*\n` runs past every
   * following line that is all whitespace, but not past the last line.
   */
  function SkipBlank(body: seq<string>, j: nat): (q: nat)
    requires j < |body|
    ensures j <= q < |body|
    ensures forall t {:trigger AllSpace(body[t])} :: j <= t < q ==> AllSpace(body[t])
    ensures q == |body| - 1 || !AllSpace(body[q])
    decreases |body| - j
  {
    if j < |body| - 1 && AllSpace(body[j]) then SkipBlank(body, j + 1) else j
  }

  /** The lookahead `(?=^\w+:|\Z)` at the start of line `j`. */
  predicate StopsAt(body: seq<string>, j: nat)
    requires j < |body|
  {
    IsWordColonLine(body[j]) || (j == |body| - 1 && body[j] == "")
  }

  /**
   * `(?:.+\n)*?(?=^\w+:|\Z)` from line `j`: the lazy repetition takes
   * non-empty lines until the lookahead holds; the line where it stops, if any.
   */
  function ValueEnd(body: seq<string>, j: nat): (r: Option<nat>)
    requires j < |body|
    ensures r.Some? ==> j <= r.value < |body| && StopsAt(body, r.value)
    ensures r.Some? ==> forall t :: j <= t < r.value ==> body[t] != ""
    ensures r.Some? ==> forall t {:trigger StopsAt(body, t)} :: j <= t < r.value ==> !StopsAt(body, t)
    decreases |body| - j
  {
    if StopsAt(body, j) then Some(j)
    else if body[j] != "" && j < |body| - 1 then ValueEnd(body, j + 1)
    else None
  }

  /** The pattern matches with its name line at `k`. */
  predicate MatchesAt(body: seq<string>, name: string, k: nat)
    requires k < |body| - 1
  {
    IsLabelLine(body[k], name) && ValueEnd(body, SkipBlank(body, k + 1)).Some?
  }

  /** `re.search`: the first line from `k` on where the pattern matches. */
  function FindLabel(body: seq<string>, name: string, k: nat): (r: Option<nat>)
    requires k <= |body|
    ensures r.Some? ==> k <= r.value < |body| - 1 && MatchesAt(body, name, r.value)
    decreases |body| - k
  {
    if k + 1 >= |body| then None
    else if MatchesAt(body, name, k) then Some(k)
    else FindLabel(body, name, k + 1)
  }

  /** `FindLabel` finds the first line where the pattern matches, and finds nothing only when no line matches. */
  lemma {:induction false} FindLabelIsFirst(body: seq<string>, name: string, k: nat)
    requires k <= |body|
    ensures FindLabel(body, name, k).Some? ==>
      forall t :: k <= t < FindLabel(body, name, k).value ==> !MatchesAt(body, name, t)
    ensures FindLabel(body, name, k).None? ==> forall t :: k <= t < |body| - 1 ==> !MatchesAt(body, name, t)
    decreases |body| - k
  {
    if k + 1 < |body| && !MatchesAt(body, name, k) {
      assert FindLabel(body, name, k) == FindLabel(body, name, k + 1);
      FindLabelIsFirst(body, name, k + 1);
    }
  }

  /** The text of `(?:.+\n)*`: every line followed by '\n'. */
  function Terminated(lines: seq<string>): (r: string)
    ensures |lines| > 0 ==> |r| > 0 && r[|r| - 1] == '\n'
  {
    if lines == [] then ""
    else Terminated(lines[..|lines| - 1]) + lines[|lines| - 1] + "\n"
  }

  /** The quote characters stripped from the ends of each line: “ ” and ". */
  const Quotes: set<char> := {'\U{201C}', '\U{201D}', '"'}

  /** `ln.strip().strip('“”"')`. */
  function CleanLine(line: string): string {
    StripChars(Strip(line), Quotes)
  }

  function CleanLines(lines: seq<string>): (r: seq<string>)
    ensures |r| == |lines|
    ensures forall i :: 0 <= i < |lines| ==> r[i] == CleanLine(lines[i])
  {
    seq(|lines|, i requires 0 <= i < |lines| => CleanLine(lines[i]))
  }

  /** `grab(name)` on the body's lines. */
  function GrabLines(body: seq<string>, name: string): string {
    match FindLabel(body, name, 0)
    case None => ""
    case Some(k) => GrabAt(body, k)
  }

  /** The value `grab` returns for the name line at `k`: `m.group(1)`, stripped of '\n', cleaned line by line. */
  function GrabAt(body: seq<string>, k: nat): string
    requires k + 1 < |body| && ValueEnd(body, SkipBlank(body, k + 1)).Some?
  {
    var q := SkipBlank(body, k + 1);
    var e := ValueEnd(body, q).value;
    var raw := StripChars(Terminated(body[q..e]), {'\n'});
    Strip(Join(CleanLines(SplitLines(raw)), "\n"))
  }

  /** `grab(name)` on the body text. */
  function Grab(body: string, name: string): string {
    GrabLines(Split(body, '\n'), name)
  }

  lemma {:induction false} TerminatedJoin(lines: seq<string>)
    requires |lines| > 0
    ensures Terminated(lines) == Join(lines, "\n") + "\n"
  {
    if |lines| > 1 {
      var p := lines[..|lines| - 1];
      TerminatedJoin(p);
      JoinSnoc(p, lines[|lines| - 1], "\n");
      assert p + [lines[|lines| - 1]] == lines;
    }
  }

  /**
   * The value's lines, stripped of '\n' at both ends and split again, are the
   * original lines, when each is non-empty and holds no '\n'.
   */
  lemma ValueLines(lines: seq<string>)
    requires forall i :: 0 <= i < |lines| ==> lines[i] != "" && '\n' !in lines[i]
    ensures SplitLines(StripChars(Terminated(lines), {'\n'})) == lines
  {
    if lines != [] {
      TerminatedJoin(lines);
      var j := Join(lines, "\n");
      JoinHead(lines, "\n");
      JoinLast(lines, "\n");
      StripNewlines(j);
      SplitJoin(lines, '\n');
    }
  }

  /** Stripping '\n' from a join that starts and ends with other characters leaves the join. */
  lemma StripNewlines(j: string)
    requires j != "" && j[0] != '\n' && j[|j| - 1] != '\n'
    ensures StripChars(j + "\n", {'\n'}) == j
  {
    var s := j + "\n";
    assert s[0] == j[0] && s[|s| - 1] == '\n';
    TrimLeftNoop(s, {'\n'});
    assert s[..|s| - 1] == j;
    TrimRightDrop(s, {'\n'});
    TrimRightNoop(j, {'\n'});
  }

  /**
   * What `grab` returns: "" when no name line matches; otherwise the lines
   * from the first non-blank line after the first matching name line up to
   * (not including) the next `word:` line or the end of the body, each
   * stripped of whitespace and then of quotes, joined with '\n' and stripped.
   */
  lemma GrabValue(body: seq<string>, name: string)
    requires forall i :: 0 <= i < |body| ==> '\n' !in body[i]
    ensures FindLabel(body, name, 0).None? ==> GrabLines(body, name) == ""
    ensures FindLabel(body, name, 0).Some? ==>
      var q := SkipBlank(body, FindLabel(body, name, 0).value + 1);
      var e := ValueEnd(body, q).value;
      GrabLines(body, name) == Strip(Join(CleanLines(body[q..e]), "\n"))
  {
    match FindLabel(body, name, 0)
    case None =>
    case Some(k) =>
      var q := SkipBlank(body, k + 1);
      var e := ValueEnd(body, q).value;
      var v := Strip(Join(CleanLines(body[q..e]), "\n"));
      assert GrabAt(body, k) == v by {
        GrabValueAt(body, k, q, e);
      }
      assert GrabLines(body, name) == v;
  }

  /** Without a line that reads `name:` (and then only whitespace), `grab` gives "". */
  lemma GrabMissing(body: seq<string>, name: string)
    requires forall i :: 0 <= i < |body| ==> !IsLabelLine(body[i], name)
    ensures GrabLines(body, name) == ""
  {
    assert FindLabel(body, name, 0).None?;
  }

  /**
   * A section laid out as intended: the name line at `k`, the first of its
   * kind, non-empty content lines that are not `word:` lines and do not start
   * with a blank line, then the next `word:` line or the end of the body.
   * `grab` returns exactly those lines, cleaned, joined and stripped.
   */
  lemma GrabSection(body: seq<string>, name: string, k: nat, e: nat)
    requires forall i :: 0 <= i < |body| ==> '\n' !in body[i]
    requires k + 1 < e < |body| && IsLabelLine(body[k], name)
    requires forall t :: 0 <= t < k ==> !IsLabelLine(body[t], name)
    requires !AllSpace(body[k + 1])
    requires forall t :: k < t < e ==> body[t] != "" && !IsWordColonLine(body[t])
    requires IsWordColonLine(body[e]) || (e == |body| - 1 && body[e] == "")
    ensures GrabLines(body, name) == Strip(Join(CleanLines(body[k + 1..e]), "\n"))
  {
    assert SkipBlank(body, k + 1) == k + 1;
    assert ValueEnd(body, k + 1) == Some(e) by {
      ValueEndAt(body, k + 1, e);
    }
    assert FindLabel(body, name, 0) == Some(k) by {
      assert MatchesAt(body, name, k);
      FindLabelAt(body, name, 0, k);
    }
    GrabValueAt(body, k, k + 1, e);
  }

  /** The value read after a name line whose value runs from line `q` to line `e`. */
  lemma GrabValueAt(body: seq<string>, k: nat, q: nat, e: nat)
    requires forall i :: 0 <= i < |body| ==> '\n' !in body[i]
    requires k + 1 < |body| && q == SkipBlank(body, k + 1) && ValueEnd(body, q) == Some(e)
    ensures GrabAt(body, k) == Strip(Join(CleanLines(body[q..e]), "\n"))
  {
    var lines := body[q..e];
    assert SplitLines(StripChars(Terminated(lines), {'\n'})) == lines by {
      forall i | 0 <= i < |lines|
        ensures lines[i] != "" && '\n' !in lines[i]
      {
        assert lines[i] == body[q + i];
      }
      ValueLines(lines);
    }
  }

  lemma {:induction false} ValueEndAt(body: seq<string>, j: nat, e: nat)
    requires j <= e < |body| && StopsAt(body, e)
    requires forall t :: j <= t < e ==> body[t] != "" && !IsWordColonLine(body[t])
    ensures ValueEnd(body, j) == Some(e)
    decreases e - j
  {
    if j < e {
      ValueEndAt(body, j + 1, e);
    }
  }

  lemma {:induction false} FindLabelAt(body: seq<string>, name: string, from: nat, k: nat)
    requires from <= k < |body| - 1 && MatchesAt(body, name, k)
    requires forall t :: from <= t < k ==> !IsLabelLine(body[t], name)
    ensures FindLabel(body, name, from) == Some(k)
    decreases k - from
  {
    if from < k {
      assert !MatchesAt(body, name, from) by {
        assert !IsLabelLine(body[from], name);
      }
      assert FindLabel(body, name, from) == FindLabel(body, name, from + 1);
      FindLabelAt(body, name, from + 1, k);
    }
  }

  /**
   * An empty line inside a section's content stops the lazy value short of the
   * next `word:` line, so that name line does not match; with no other name
   * line, `grab` returns "" and the whole section is lost.
   */
  lemma GrabBlankLineLosesSection(body: seq<string>, name: string, k: nat)
    requires k + 3 < |body|
    requires forall t :: 0 <= t < |body| ==> (IsLabelLine(body[t], name) <==> t == k)
    requires !AllSpace(body[k + 1]) && !IsWordColonLine(body[k + 1])
    requires body[k + 2] == ""
    ensures GrabLines(body, name) == ""
  {
    assert SkipBlank(body, k + 1) == k + 1;
    assert body[k + 1] != "";
    assert ValueEnd(body, k + 2) == None;
    assert !MatchesAt(body, name, k);
    assert FindLabel(body, name, 0).None?;
  }

  // ----- extract_blocks -----------------------------------------------------

  /** A line that `BEGIN_RE` matches: `(?P<kv>.+)` needs a character after `BEGIN `. */
  predicate IsBeginLine(line: string) {
    BeginRest(line).Some? && BeginRest(line).value != ""
  }

  /** A `BEGIN_RE` match: its line, `group("ver")` and `group("kv")`. */
  datatype BeginMatch = BeginMatch(line: nat, version: string, kv: string)

  function MatchAt(lines: seq<string>, j: nat): BeginMatch
    requires j < |lines| && IsBeginLine(lines[j])
  {
    BeginMatch(j, Version(lines[j]), BeginRest(lines[j]).value)
  }

  /** `BEGIN_RE.finditer(text)` from line `j` on: one match per BEGIN line, in order. */
  function BeginMatches(lines: seq<string>, j: nat): (r: seq<BeginMatch>)
    requires j <= |lines|
    ensures forall i :: 0 <= i < |r| ==>
      j <= r[i].line < |lines| && IsBeginLine(lines[r[i].line]) && r[i] == MatchAt(lines, r[i].line)
    ensures forall t :: j <= t < |lines| && IsBeginLine(lines[t]) ==> MatchAt(lines, t) in r
    ensures forall a, b :: 0 <= a < b < |r| ==> r[a].line < r[b].line
    decreases |lines| - j
  {
    if j == |lines| then []
    else
      var rest := BeginMatches(lines, j + 1);
      var m := if IsBeginLine(lines[j]) then [MatchAt(lines, j)] else [];
      MatchesCons(j, m, rest);
      m + rest
  }

  /** Putting at most one match of line `j` before matches of later lines in increasing order keeps the order and the members. */
  lemma MatchesCons(j: nat, m: seq<BeginMatch>, rest: seq<BeginMatch>)
    requires |m| <= 1 && forall i :: 0 <= i < |m| ==> m[i].line == j
    requires forall i :: 0 <= i < |rest| ==> j < rest[i].line
    requires forall a, b :: 0 <= a < b < |rest| ==> rest[a].line < rest[b].line
    ensures var r := m + rest;
      (forall a, b :: 0 <= a < b < |r| ==> r[a].line < r[b].line) &&
      (forall x :: x in rest ==> x in r) && (forall x :: x in m ==> x in r) &&
      (forall i :: 0 <= i < |r| ==> r[i] in m || r[i] in rest)
  {
  }

  /** `END_RE.finditer(text)` from line `j` on: the END lines, in order. */
  function EndLines(lines: seq<string>, j: nat): (r: seq<nat>)
    requires j <= |lines|
    ensures forall i :: 0 <= i < |r| ==> j <= r[i] < |lines| && IsEndLine(lines[r[i]])
    ensures forall t :: j <= t < |lines| && IsEndLine(lines[t]) ==> t in r
    ensures forall a, b :: 0 <= a < b < |r| ==> r[a] < r[b]
    decreases |lines| - j
  {
    if j == |lines| then []
    else
      var rest := EndLines(lines, j + 1);
      LinesCons(j, rest, IsEndLine(lines[j]));
      (if IsEndLine(lines[j]) then [j] else []) + rest
  }

  /** Putting line `j` (or nothing) before later lines in increasing order keeps the order and the members. */
  lemma LinesCons(j: nat, rest: seq<nat>, take: bool)
    requires forall i :: 0 <= i < |rest| ==> j < rest[i]
    requires forall a, b :: 0 <= a < b < |rest| ==> rest[a] < rest[b]
    ensures var r := (if take then [j] else []) + rest;
      (forall a, b :: 0 <= a < b < |r| ==> r[a] < r[b]) &&
      (forall t :: t in rest ==> t in r) && (take ==> j in r) &&
      (forall i :: 0 <= i < |r| ==> r[i] == j || r[i] in rest)
  {
  }

  /** The first END line at or after line `from`. */
  function FirstEnd(lines: seq<string>, from: nat): (r: Option<nat>)
    requires from <= |lines|
    ensures r.Some? ==> from <= r.value < |lines| && IsEndLine(lines[r.value])
    ensures r.Some? ==> forall t :: from <= t < r.value ==> !IsEndLine(lines[t])
    ensures r.None? ==> forall t :: from <= t < |lines| ==> !IsEndLine(lines[t])
    decreases |lines| - from
  {
    if from == |lines| then None
    else if IsEndLine(lines[from]) then Some(from)
    else FirstEnd(lines, from + 1)
  }

  /** Offset of the start of line `j` in the text the lines were split from. */
  function LineStart(lines: seq<string>, j: nat): nat
    requires j <= |lines|
  {
    |Terminated(lines[..j])|
  }

  /** `text[b.end():e.start()]` for a BEGIN line `b` and a later line `e`: the '\n' that ends line `b`, then every line in between with its '\n'. */
  function BodyText(lines: seq<string>, b: nat, e: nat): string
    requires b < e <= |lines|
  {
    "\n" + Terminated(lines[b + 1..e])
  }

  /**
   * `next((e for e in ends if e.start() > start_body), None)` on line numbers:
   * the first END line of `es` after line `b`.
   */
  function FirstAfter(es: seq<nat>, b: nat): (r: Option<nat>)
    ensures r.Some? ==> r.value in es && r.value > b
    ensures r.None? ==> forall t :: 0 <= t < |es| ==> es[t] <= b
  {
    if es == [] then None
    else if es[0] > b then Some(es[0])
    else FirstAfter(es[1..], b)
  }

  /** A BEGIN match and the END line it is paired with. */
  datatype Pair = Pair(begin: BeginMatch, end: nat)

  predicate ValidPair(lines: seq<string>, p: Pair) {
    p.begin.line < p.end < |lines|
  }

  predicate AllValid(lines: seq<string>, ps: seq<Pair>) {
    forall i :: 0 <= i < |ps| ==> ValidPair(lines, ps[i])
  }

  /** The pairs the loop of `extract_blocks` forms for BEGIN matches `bs` and END lines `es`. */
  function PairsOf(bs: seq<BeginMatch>, es: seq<nat>): (ps: seq<Pair>)
    ensures |ps| <= |bs|
    ensures forall i :: 0 <= i < |ps| ==> ps[i].begin in bs && FirstAfter(es, ps[i].begin.line) == Some(ps[i].end)
  {
    if bs == [] then []
    else
      var b := bs[|bs| - 1];
      PairsOf(bs[..|bs| - 1], es) + (match FirstAfter(es, b.line) case Some(e) => [Pair(b, e)] case None => [])
  }

  /** `bs` and `es` are lines of `lines`. */
  predicate WithinLines(lines: seq<string>, bs: seq<BeginMatch>, es: seq<nat>) {
    (forall x :: 0 <= x < |bs| ==> bs[x].line < |lines|) && (forall y :: 0 <= y < |es| ==> es[y] < |lines|)
  }

  /** Every pair formed from matches within the lines is a BEGIN line with a later line. */
  lemma PairsOfValid(lines: seq<string>, bs: seq<BeginMatch>, es: seq<nat>)
    requires WithinLines(lines, bs, es)
    ensures AllValid(lines, PairsOf(bs, es))
  {
    var ps := PairsOf(bs, es);
    forall i | 0 <= i < |ps|
      ensures ValidPair(lines, ps[i])
    {
      var x :| 0 <= x < |bs| && bs[x] == ps[i].begin;
      var y :| 0 <= y < |es| && es[y] == ps[i].end;
    }
  }

  /** Every BEGIN line of the text, with the first END line that follows it. */
  function Pairs(lines: seq<string>): (ps: seq<Pair>)
    ensures AllValid(lines, ps)
  {
    var bs := BeginMatches(lines, 0);
    var es := EndLines(lines, 0);
    PairsOfValid(lines, bs, es);
    PairsOf(bs, es)
  }

  /** `{"version": ..., **meta, "entry": ..., "mission": ..., "outcome": ...}`: later keys win. */
  function Assemble(version: string, meta: Header, entry: string, mission: string, outcome: string): (r: Header)
    ensures r.Keys == meta.Keys + {"version", "entry", "mission", "outcome"}
    ensures r["entry"] == Str(entry) && r["mission"] == Str(mission) && r["outcome"] == Str(outcome)
    ensures r["version"] == if "version" in meta then meta["version"] else Str(version)
    ensures forall k :: k in meta && k != "entry" && k != "mission" && k != "outcome" ==> r[k] == meta[k]
  {
    (map["version" := Str(version)] + meta)["entry" := Str(entry)]["mission" := Str(mission)]["outcome" := Str(outcome)]
  }

  /** The record `extract_blocks` yields for a pair. */
  function RecordAt(lines: seq<string>, p: Pair): Header
    requires ValidPair(lines, p)
  {
    var body := BodyText(lines, p.begin.line, p.end);
    Assemble(p.begin.version, ParsedKv(p.begin.kv), Grab(body, "entry"), Grab(body, "mission"), Grab(body, "outcome"))
  }

  /** The records of pairs `ps`, one per pair, in order (`RecordsOfAt`). */
  function RecordsOf(lines: seq<string>, ps: seq<Pair>): (r: seq<Header>)
    requires AllValid(lines, ps)
    ensures |r| == |ps|
  {
    if ps == [] then [] else RecordsOf(lines, ps[..|ps| - 1]) + [RecordAt(lines, ps[|ps| - 1])]
  }

  /** Record `i` of `RecordsOf` is the record of pair `i`. */
  lemma {:induction false} RecordsOfAt(lines: seq<string>, ps: seq<Pair>, i: nat)
    requires AllValid(lines, ps) && i < |ps|
    ensures RecordsOf(lines, ps)[i] == RecordAt(lines, ps[i])
    decreases |ps|
  {
    if i == |ps| - 1 {
      RecordsOfLast(lines, ps);
    } else {
      var front := RecordsOfFront(lines, ps, i);
      RecordsOfAt(lines, front, i);
    }
  }

  /** The last record is the last pair's. */
  lemma RecordsOfLast(lines: seq<string>, ps: seq<Pair>)
    requires AllValid(lines, ps) && ps != []
    ensures RecordsOf(lines, ps)[|ps| - 1] == RecordAt(lines, ps[|ps| - 1])
  {
  }

  /** An earlier record is the same record of all but the last pair. */
  lemma RecordsOfFront(lines: seq<string>, ps: seq<Pair>, i: nat) returns (front: seq<Pair>)
    requires AllValid(lines, ps) && i < |ps| - 1
    ensures front == ps[..|ps| - 1] && AllValid(lines, front) && front[i] == ps[i]
    ensures RecordsOf(lines, ps)[i] == RecordsOf(lines, front)[i]
  {
    front := ps[..|ps| - 1];
    var last := ps[|ps| - 1];
    FrontValid(lines, ps);
    assert front + [last] == ps;
    RecordsOfSnoc(lines, front, last);
    SnocAt(RecordsOf(lines, front), RecordAt(lines, last), i);
  }

  lemma FrontValid(lines: seq<string>, ps: seq<Pair>)
    requires AllValid(lines, ps) && ps != []
    ensures AllValid(lines, ps[..|ps| - 1])
  {
    var front := ps[..|ps| - 1];
    forall t | 0 <= t < |front|
      ensures ValidPair(lines, front[t])
    {
      assert front[t] == ps[t];
    }
  }

  lemma SnocAt<T>(s: seq<T>, x: T, i: nat)
    requires i < |s|
    ensures (s + [x])[i] == s[i]
  {
  }

  /** What `extract_blocks(text)` yields, in order. */
  function Records(text: string): seq<Header> {
    var lines := Split(text, '\n');
    RecordsOf(lines, Pairs(lines))
  }

  /** `extract_blocks`: for each BEGIN match, the first END match that starts after it, if any, gives a record. */
  method ExtractBlocks(text: string) returns (records: seq<Header>)
    ensures records == Records(text)
  {
    var lines := Split(text, '\n');
    var begins := BeginMatches(lines, 0);
    var ends := EndLines(lines, 0);
    records := PairUp(text, lines, begins, ends);
  }

  /** The loop of `extract_blocks` over the BEGIN matches `begins`, given the END lines `ends`. */
  method PairUp(text: string, lines: seq<string>, begins: seq<BeginMatch>, ends: seq<nat>) returns (records: seq<Header>)
    requires lines == Split(text, '\n') && WithinLines(lines, begins, ends)
    ensures AllValid(lines, PairsOf(begins, ends)) && records == RecordsOf(lines, PairsOf(begins, ends))
  {
    records := [];
    for i := 0 to |begins|
      invariant AllValid(lines, PairsOf(begins[..i], ends))
      invariant records == RecordsOf(lines, PairsOf(begins[..i], ends))
    {
      var b := begins[i];
      var found := FindEnd(lines, ends, b.line);
      ghost var before := PairsOf(begins[..i], ends);
      PairsOfPrefix(begins, ends, i);
      WithinPrefix(lines, begins, ends, i + 1);
      PairsOfValid(lines, begins[..i + 1], ends);
      if found.Some? {
        var rec := BlockRecord(text, lines, b, found.value);
        assert PairsOf(begins[..i + 1], ends) == before + [Pair(b, found.value)];
        RecordsOfSnoc(lines, before, Pair(b, found.value));
        records := records + [rec];
      } else {
        assert PairsOf(begins[..i + 1], ends) == before;
      }
    }
    assert begins[..|begins|] == begins;
  }

  lemma WithinPrefix(lines: seq<string>, bs: seq<BeginMatch>, es: seq<nat>, n: nat)
    requires WithinLines(lines, bs, es) && n <= |bs|
    ensures WithinLines(lines, bs[..n], es)
  {
  }

  lemma RecordsOfSnoc(lines: seq<string>, ps: seq<Pair>, p: Pair)
    requires AllValid(lines, ps) && ValidPair(lines, p)
    ensures AllValid(lines, ps + [p]) && RecordsOf(lines, ps + [p]) == RecordsOf(lines, ps) + [RecordAt(lines, p)]
  {
    assert (ps + [p])[..|ps|] == ps;
  }

  /** `PairsOf` grows by the pair of the next BEGIN match, if it has one. */
  lemma PairsOfPrefix(bs: seq<BeginMatch>, es: seq<nat>, i: nat)
    requires i < |bs|
    ensures PairsOf(bs[..i + 1], es) ==
      PairsOf(bs[..i], es) + (match FirstAfter(es, bs[i].line) case Some(e) => [Pair(bs[i], e)] case None => [])
  {
    assert bs[..i + 1][..i] == bs[..i];
  }

  /** The generator expression of `extract_blocks`: scan the END matches for one that starts past the BEGIN line's end. */
  method FindEnd(lines: seq<string>, ends: seq<nat>, b: nat) returns (found: Option<nat>)
    requires b < |lines| && forall t :: 0 <= t < |ends| ==> ends[t] < |lines|
    ensures found == FirstAfter(ends, b)
  {
    var startBody := LineStart(lines, b) + |lines[b]|;
    var k := 0;
    while k < |ends| && LineStart(lines, ends[k]) <= startBody
      invariant 0 <= k <= |ends|
      invariant forall t :: 0 <= t < k ==> ends[t] <= b
    {
      OffsetOrder(lines, b, ends[k]);
      k := k + 1;
    }
    if k < |ends| {
      OffsetOrder(lines, b, ends[k]);
      found := Some(ends[k]);
    } else {
      found := None;
    }
    FirstAfterAt(ends, b, k);
  }

  /** The first element past `b` is the one the scan stops at. */
  lemma {:induction false} FirstAfterAt(es: seq<nat>, b: nat, k: nat)
    requires k <= |es| && forall t :: 0 <= t < k ==> es[t] <= b
    requires k < |es| ==> es[k] > b
    ensures FirstAfter(es, b) == if k < |es| then Some(es[k]) else None
  {
    if es != [] && k > 0 {
      FirstAfterAt(es[1..], b, k - 1);
    }
  }

  /** The record for BEGIN match `b` and END line `e`: `parse_kv` on the header and `grab` on `text[b.end():e.start()]`. */
  method BlockRecord(text: string, lines: seq<string>, b: BeginMatch, e: nat) returns (rec: Header)
    requires lines == Split(text, '\n') && ValidPair(lines, Pair(b, e))
    ensures rec == RecordAt(lines, Pair(b, e))
  {
    BodySlice(text, lines, b.line, e);
    var body := text[LineStart(lines, b.line) + |lines[b.line]|..LineStart(lines, e)];
    var meta := ParseKv(b.kv);
    rec := Assemble(b.version, meta, Grab(body, "entry"), Grab(body, "mission"), Grab(body, "outcome"));
  }

  lemma {:induction false} TerminatedAppend(v: seq<string>, w: seq<string>)
    ensures Terminated(v + w) == Terminated(v) + Terminated(w)
    decreases |w|
  {
    if w != [] {
      var w' := w[..|w| - 1];
      var x := w[|w| - 1];
      assert v + w == (v + w') + [x];
      assert w == w' + [x];
      TerminatedAppend(v, w');
      TerminatedSnoc(v + w', x);
      TerminatedSnoc(w', x);
      var a, b, c := Terminated(v), Terminated(w'), x + "\n";
      assert (a + b) + c == a + (b + c);
    } else {
      assert v + w == v;
    }
  }

  lemma TerminatedSnoc(p: seq<string>, x: string)
    ensures Terminated(p + [x]) == Terminated(p) + (x + "\n")
  {
    assert (p + [x])[..|p|] == p;
  }

  /** The text is the lines before `j`, each with its '\n', followed by the rest joined. */
  lemma {:induction false} TextFrom(lines: seq<string>, j: nat)
    requires j < |lines|
    ensures Join(lines, "\n") == Terminated(lines[..j]) + Join(lines[j..], "\n")
  {
    if j > 0 {
      TextFrom(lines, j - 1);
      var r := lines[j - 1..];
      assert r[1..] == lines[j..];
      assert Join(r, "\n") == lines[j - 1] + "\n" + Join(lines[j..], "\n");
      assert lines[..j][..j - 1] == lines[..j - 1];
    } else {
      assert lines[0..] == lines;
    }
  }

  /** Line `b`'s start plus its length, then its '\n' and the lines up to `e`, make up line `e`'s start. */
  lemma LineStarts(lines: seq<string>, b: nat, e: nat)
    requires b < e <= |lines|
    ensures Terminated(lines[..e]) == Terminated(lines[..b]) + lines[b] + BodyText(lines, b, e)
  {
    assert lines[..e] == lines[..b] + ([lines[b]] + lines[b + 1..e]);
    TerminatedAppend(lines[..b], [lines[b]] + lines[b + 1..e]);
    TerminatedAppend([lines[b]], lines[b + 1..e]);
    assert [lines[b]][..0] == [];
  }

  /**
   * `e.start() > b.end()` holds exactly when END line `e` comes after BEGIN
   * line `b`: comparing match offsets is comparing line numbers.
   */
  lemma OffsetOrder(lines: seq<string>, b: nat, e: nat)
    requires b < |lines| && e < |lines|
    ensures LineStart(lines, e) > LineStart(lines, b) + |lines[b]| <==> e > b
  {
    if e > b {
      LineStarts(lines, b, e);
    } else {
      assert lines[..b] == lines[..e] + lines[e..b];
      TerminatedAppend(lines[..e], lines[e..b]);
    }
  }

  /** The offsets of a BEGIN line's end and a later line's start cut the body out of the text. */
  lemma BodySlice(text: string, lines: seq<string>, b: nat, e: nat)
    requires lines == Split(text, '\n') && b < e < |lines|
    ensures LineStart(lines, b) + |lines[b]| <= LineStart(lines, e) <= |text|
    ensures text[LineStart(lines, b) + |lines[b]|..LineStart(lines, e)] == BodyText(lines, b, e)
  {
    JoinSplit(text, '\n');
    TextFrom(lines, e);
    LineStarts(lines, b, e);
    var x := Terminated(lines[..b]) + lines[b];
    var y := BodyText(lines, b, e);
    var z := Join(lines[e..], "\n");
    assert text == x + y + z;
    assert (x + y + z)[|x|..|x| + |y|] == y;
  }

  /** The body's lines: an empty line, the lines between the markers, an empty line. */
  lemma BodyLines(lines: seq<string>, b: nat, e: nat)
    requires b < e <= |lines|
    requires forall i :: 0 <= i < |lines| ==> '\n' !in lines[i]
    ensures Split(BodyText(lines, b, e), '\n') == [""] + lines[b + 1..e] + [""]
  {
    var v := lines[b + 1..e];
    var parts := [""] + v + [""];
    if v == [] {
      assert BodyText(lines, b, e) == Join(parts, "\n");
    } else {
      TerminatedJoin(v);
      assert ([""] + v)[1..] == v;
      JoinSnoc([""] + v, "", "\n");
      assert BodyText(lines, b, e) == Join(parts, "\n");
    }
    forall i | 0 <= i < |parts|
      ensures '\n' !in parts[i]
    {
      if 0 < i < |parts| - 1 {
        assert parts[i] == lines[b + i];
      }
    }
    SplitJoin(parts, '\n');
  }

  /** A pair is formed exactly for a BEGIN match of `bs` that has an END line after it, with the first such END. */
  lemma {:induction false} PairsOfMembers(bs: seq<BeginMatch>, es: seq<nat>, p: Pair)
    ensures p in PairsOf(bs, es) <==> p.begin in bs && FirstAfter(es, p.begin.line) == Some(p.end)
  {
    if bs != [] {
      var q := bs[..|bs| - 1];
      PairsOfMembers(q, es, p);
      assert bs == q + [bs[|bs| - 1]];
    }
  }

  /** The pairs come in the order of their BEGIN lines. */
  lemma {:induction false} PairsOfOrdered(bs: seq<BeginMatch>, es: seq<nat>)
    requires forall a, b :: 0 <= a < b < |bs| ==> bs[a].line < bs[b].line
    ensures forall a, b :: 0 <= a < b < |PairsOf(bs, es)| ==> PairsOf(bs, es)[a].begin.line < PairsOf(bs, es)[b].begin.line
  {
    if bs != [] {
      var q := bs[..|bs| - 1];
      PairsOfOrdered(q, es);
      var last := bs[|bs| - 1];
      var pq := PairsOf(q, es);
      forall i | 0 <= i < |pq|
        ensures pq[i].begin.line < last.line
      {
        var x :| 0 <= x < |q| && q[x] == pq[i].begin;
        assert q[x] == bs[x];
      }
      var ps := PairsOf(bs, es);
      assert ps == pq + (match FirstAfter(es, last.line) case Some(e) => [Pair(last, e)] case None => []);
      forall a, b | 0 <= a < b < |ps|
        ensures ps[a].begin.line < ps[b].begin.line
      {
        assert ps[a] == pq[a];
        if b < |pq| {
          assert ps[b] == pq[b];
        } else {
          assert ps[b].begin == last;
        }
      }
    }
  }

  /** In a sorted list of END lines, `FirstAfter` is the least one after `b`. */
  lemma {:induction false} FirstAfterLeast(es: seq<nat>, b: nat)
    requires forall x, y :: 0 <= x < y < |es| ==> es[x] < es[y]
    ensures FirstAfter(es, b).Some? ==> forall t :: t in es && t > b ==> FirstAfter(es, b).value <= t
  {
    if es != [] && es[0] <= b {
      FirstAfterLeast(es[1..], b);
      forall t | t in es && t > b
        ensures t in es[1..]
      {
        var x :| 0 <= x < |es| && es[x] == t;
        assert x > 0;
        assert es[1..][x - 1] == t;
      }
    }
  }

  /** Over the END lines of the text, `FirstAfter` is `FirstEnd`: the first END line after line `b`. */
  lemma FirstAfterIsFirstEnd(lines: seq<string>, b: nat)
    requires b < |lines|
    ensures FirstAfter(EndLines(lines, 0), b) == FirstEnd(lines, b + 1)
  {
    match FirstAfter(EndLines(lines, 0), b)
    case Some(v) => FirstAfterSome(lines, b, v);
    case None => FirstAfterNone(lines, b);
  }

  lemma FirstAfterSome(lines: seq<string>, b: nat, v: nat)
    requires b < |lines| && FirstAfter(EndLines(lines, 0), b) == Some(v)
    ensures FirstEnd(lines, b + 1) == Some(v)
  {
    EndMember(lines, b, v);
    NoEndBetween(lines, b, v);
    FirstEndIs(lines, b + 1, v);
  }

  lemma EndMember(lines: seq<string>, b: nat, v: nat)
    requires FirstAfter(EndLines(lines, 0), b) == Some(v)
    ensures b < v < |lines| && IsEndLine(lines[v])
  {
    var es := EndLines(lines, 0);
    var x :| 0 <= x < |es| && es[x] == v;
  }

  /** No END line lies between `b` and the least END line after it. */
  lemma NoEndBetween(lines: seq<string>, b: nat, v: nat)
    requires FirstAfter(EndLines(lines, 0), b) == Some(v)
    ensures v <= |lines|
    ensures forall t :: b < t < v ==> !IsEndLine(lines[t])
  {
    var es := EndLines(lines, 0);
    FirstAfterLeast(es, b);
    assert v in es;
    forall t | b < t < v
      ensures !IsEndLine(lines[t])
    {
      assert IsEndLine(lines[t]) ==> t in es;
    }
  }

  lemma FirstAfterNone(lines: seq<string>, b: nat)
    requires b < |lines| && FirstAfter(EndLines(lines, 0), b) == None
    ensures FirstEnd(lines, b + 1) == None
  {
    var es := EndLines(lines, 0);
    NoEndAfter(lines, es, b);
  }

  /** No END line follows line `b` when every END line is listed in `es` and all of `es` comes at or before `b`. */
  lemma NoEndAfter(lines: seq<string>, es: seq<nat>, b: nat)
    requires b < |lines|
    requires forall t :: 0 <= t < |lines| && IsEndLine(lines[t]) ==> t in es
    requires forall i :: 0 <= i < |es| ==> es[i] <= b
    ensures FirstEnd(lines, b + 1) == None
  {
    forall t | b + 1 <= t < |lines|
      ensures !IsEndLine(lines[t])
    {
      assert IsEndLine(lines[t]) ==> t in es;
    }
    FirstEndNone(lines, b + 1);
  }


  /**
   * Pairing: a pair is formed exactly for each BEGIN line that has an END line
   * after it, with the first such END; the pairs come in BEGIN order. END lines
   * are not used up: several BEGIN lines may share one END.
   */
  lemma PairsSpec(lines: seq<string>, p: Pair)
    ensures p in Pairs(lines) <==>
      p.begin.line < |lines| && IsBeginLine(lines[p.begin.line]) && p.begin == MatchAt(lines, p.begin.line) &&
      FirstEnd(lines, p.begin.line + 1) == Some(p.end)
  {
    var bs := BeginMatches(lines, 0);
    var es := EndLines(lines, 0);
    var line := p.begin.line;
    PairsOfMembers(bs, es, p);
    BeginMatchesMembers(lines, p.begin);
    if line < |lines| {
      FirstAfterIsFirstEnd(lines, line);
    }
    Chain(p in Pairs(lines), p.begin in bs, FirstAfter(es, line) == Some(p.end),
      line < |lines| && IsBeginLine(lines[line]) && p.begin == MatchAt(lines, line),
      line < |lines| && FirstEnd(lines, line + 1) == Some(p.end));
  }

  /** The propositional step of `PairsSpec`. */
  lemma Chain(a: bool, b: bool, c: bool, d: bool, e: bool)
    requires a == (b && c) && b == d && (d ==> c == e)
    ensures a == (d && e)
  {
  }

  /** `BEGIN_RE.finditer` reports exactly the BEGIN lines. */
  lemma BeginMatchesMembers(lines: seq<string>, m: BeginMatch)
    ensures m in BeginMatches(lines, 0) <==>
      m.line < |lines| && IsBeginLine(lines[m.line]) && m == MatchAt(lines, m.line)
  {
    var bs := BeginMatches(lines, 0);
    if m in bs {
      var i :| 0 <= i < |bs| && bs[i] == m;
    }
  }

  /** The records come in the order of the BEGIN lines. */
  lemma PairsOrdered(lines: seq<string>)
    ensures forall a, b :: 0 <= a < b < |Pairs(lines)| ==> Pairs(lines)[a].begin.line < Pairs(lines)[b].begin.line
  {
    PairsOfOrdered(BeginMatches(lines, 0), EndLines(lines, 0));
  }

  /**
   * Two BEGIN lines with no END line between them are both paired with the
   * first END after the second: a BEGIN left without its own END still yields a
   * record, whose body runs across the second block.
   */
  lemma SharedEnd(lines: seq<string>, b1: nat, b2: nat, e: nat)
    requires b1 < b2 < e < |lines|
    requires IsBeginLine(lines[b1]) && IsBeginLine(lines[b2]) && IsEndLine(lines[e])
    requires forall t :: b1 < t < e ==> !IsEndLine(lines[t])
    ensures Pair(MatchAt(lines, b1), e) in Pairs(lines) && Pair(MatchAt(lines, b2), e) in Pairs(lines)
  {
    PairedBefore(lines, b1, e);
    PairedBefore(lines, b2, e);
  }

  /** A BEGIN line with no END line between it and line `e` is paired with `e`. */
  lemma PairedBefore(lines: seq<string>, b: nat, e: nat)
    requires b < e < |lines| && IsBeginLine(lines[b]) && IsEndLine(lines[e])
    requires forall t :: b < t < e ==> !IsEndLine(lines[t])
    ensures Pair(MatchAt(lines, b), e) in Pairs(lines)
  {
    FirstEndIs(lines, b + 1, e);
    PairedWithFirstEnd(lines, b, e);
  }

  /** A BEGIN line is paired with the first END line after it. */
  lemma PairedWithFirstEnd(lines: seq<string>, b: nat, e: nat)
    requires b < |lines| && IsBeginLine(lines[b]) && FirstEnd(lines, b + 1) == Some(e)
    ensures Pair(MatchAt(lines, b), e) in Pairs(lines)
  {
    PairsSpec(lines, Pair(MatchAt(lines, b), e));
  }

  lemma FirstEndIs(lines: seq<string>, from: nat, e: nat)
    requires from <= e < |lines| && IsEndLine(lines[e])
    requires forall t :: from <= t < e ==> !IsEndLine(lines[t])
    ensures FirstEnd(lines, from) == Some(e)
  {
  }

  lemma FirstEndNone(lines: seq<string>, from: nat)
    requires from <= |lines|
    requires forall t :: from <= t < |lines| ==> !IsEndLine(lines[t])
    ensures FirstEnd(lines, from) == None
  {
  }

  // ----- a text holding one block -------------------------------------------

  /** With `b` the only BEGIN line, the BEGIN matches from line `j` on are that one match, or none once `j` is past it. */
  lemma {:induction false} BeginMatchesFrom(lines: seq<string>, b: nat, j: nat)
    requires b < |lines| && j <= |lines|
    requires forall t :: 0 <= t < |lines| ==> (IsBeginLine(lines[t]) <==> t == b)
    ensures BeginMatches(lines, j) == if j <= b then [MatchAt(lines, b)] else []
    decreases |lines| - j
  {
    if j < |lines| {
      BeginMatchesFrom(lines, b, j + 1);
    }
  }

  /** With `e` the only END line, the END lines from line `j` on are `e`, or none once `j` is past it. */
  lemma {:induction false} EndLinesFrom(lines: seq<string>, e: nat, j: nat)
    requires e < |lines| && j <= |lines|
    requires forall t :: 0 <= t < |lines| ==> (IsEndLine(lines[t]) <==> t == e)
    ensures EndLines(lines, j) == if j <= e then [e] else []
    decreases |lines| - j
  {
    if j < |lines| {
      EndLinesFrom(lines, e, j + 1);
      assert EndLines(lines, j) == (if IsEndLine(lines[j]) then [j] else []) + EndLines(lines, j + 1);
    }
  }

  /** A text whose only BEGIN line `b` comes before its only END line `e` holds exactly one block, and yields its record. */
  lemma OneBlock(lines: seq<string>, b: nat, e: nat)
    requires b < e < |lines|
    requires forall t :: 0 <= t < |lines| ==> (IsBeginLine(lines[t]) <==> t == b)
    requires forall t :: 0 <= t < |lines| ==> (IsEndLine(lines[t]) <==> t == e)
    ensures Pairs(lines) == [Pair(MatchAt(lines, b), e)]
    ensures RecordsOf(lines, Pairs(lines)) == [RecordAt(lines, Pair(MatchAt(lines, b), e))]
  {
    var m := MatchAt(lines, b);
    BeginMatchesFrom(lines, b, 0);
    EndLinesFrom(lines, e, 0);
    assert [m][..0] == [];
    assert PairsOf([m], [e]) == [Pair(m, e)];
  }

  /**
   * The record of a pair whose version, header and three sections are known.
   * An unfolding of `RecordAt` for the round-trip lemmas.
   */
  lemma RecordIs(lines: seq<string>, p: Pair, version: string, meta: Header, entry: string, mission: string, outcome: string)
    requires ValidPair(lines, p) && p.begin.version == version && ParsedKv(p.begin.kv) == meta
    requires Grab(BodyText(lines, p.begin.line, p.end), "entry") == entry
    requires Grab(BodyText(lines, p.begin.line, p.end), "mission") == mission
    requires Grab(BodyText(lines, p.begin.line, p.end), "outcome") == outcome
    ensures RecordAt(lines, p) == Assemble(version, meta, entry, mission, outcome)
  {
  }

  // ----- grab of a one-line section -----------------------------------------

  /**
   * `grab(name)` where the first `name:` line is followed by one indented
   * value line and then a `word:` line or the end of the body: the stripped
   * value, cleaned as `grab` cleans each line. An empty value is not taken
   * for a line of its own: `\s*\n` skips the blank line.
   */
  lemma GrabIndented(body: seq<string>, name: string, k: nat, v: string)
    requires forall i :: 0 <= i < |body| ==> '\n' !in body[i]
    requires k + 2 < |body| && body[k] == name + ":" && body[k + 1] == "  " + v && Strip(v) == v
    requires StopsAt(body, k + 2)
    requires forall t :: 0 <= t < k ==> !IsLabelLine(body[t], name)
    ensures GrabLines(body, name) == Strip(CleanLine(v))
  {
    NameLine(name);
    if v == "" {
      GrabEmptyValue(body, name, k);
      CleanEmpty();
    } else {
      GrabOneLine(body, name, k, v);
      StripIndent(v);
    }
  }

  lemma NameLine(name: string)
    ensures IsLabelLine(name + ":", name)
  {
    assert (name + ":")[..|name| + 1] == name + ":";
    assert (name + ":")[|name| + 1..] == "";
  }

  lemma CleanEmpty()
    ensures Strip(CleanLine("")) == ""
  {
  }

  lemma GrabEmptyValue(body: seq<string>, name: string, k: nat)
    requires forall i :: 0 <= i < |body| ==> '\n' !in body[i]
    requires k + 2 < |body| && IsLabelLine(body[k], name) && body[k + 1] == "  " && StopsAt(body, k + 2)
    requires forall t :: 0 <= t < k ==> !IsLabelLine(body[t], name)
    ensures GrabLines(body, name) == ""
  {
    SliceEmpty(body, k + 2);
    EmptyValueText();
    IndentedEmpty(body, k);
    FindLabelAt(body, name, 0, k);
    GrabValueAt(body, k, k + 2, k + 2);
  }

  lemma SliceEmpty<T>(s: seq<T>, i: nat)
    requires i <= |s|
    ensures s[i..i] == []
  {
  }

  lemma EmptyValueText()
    ensures Strip(Join(CleanLines([]), "\n")) == ""
  {
  }

  lemma GrabOneLine(body: seq<string>, name: string, k: nat, v: string)
    requires forall i :: 0 <= i < |body| ==> '\n' !in body[i]
    requires k + 2 < |body| && IsLabelLine(body[k], name) && body[k + 1] == "  " + v && v != "" && Strip(v) == v
    requires StopsAt(body, k + 2)
    requires forall t :: 0 <= t < k ==> !IsLabelLine(body[t], name)
    ensures GrabLines(body, name) == Strip(CleanLine(body[k + 1]))
  {
    SliceOne(body, k + 1);
    IndentedValue(body, k, v);
    FindLabelAt(body, name, 0, k);
    GrabValueAt(body, k, k + 1, k + 2);
  }

  lemma SliceOne<T>(s: seq<T>, i: nat)
    requires i < |s|
    ensures s[i..i + 1] == [s[i]]
  {
  }

  /** An empty value line is skipped, and the value ends where it started. */
  lemma IndentedEmpty(body: seq<string>, k: nat)
    requires k + 2 < |body| && body[k + 1] == "  " && StopsAt(body, k + 2)
    ensures SkipBlank(body, k + 1) == k + 2 && ValueEnd(body, k + 2) == Some(k + 2)
  {
    assert AllSpace(body[k + 1]);
    assert !AllSpace(body[k + 2]) || k + 2 == |body| - 1 by {
      if IsWordColonLine(body[k + 2]) {
        assert IsWordChar(body[k + 2][0]);
      }
    }
  }

  /** A non-empty value line is where the value starts, and it is the one line the value takes. */
  lemma IndentedValue(body: seq<string>, k: nat, v: string)
    requires k + 2 < |body| && body[k + 1] == "  " + v && v != "" && Strip(v) == v && StopsAt(body, k + 2)
    ensures SkipBlank(body, k + 1) == k + 1 && ValueEnd(body, k + 1) == Some(k + 2)
  {
    StripShape(v);
    assert body[k + 1][2] == v[0];
    assert !IsWordColonLine(body[k + 1]) by {
      assert !IsWordChar(body[k + 1][0]);
    }
    ValueEndAt(body, k + 1, k + 2);
  }

  /** Two spaces before a stripped string go with `strip`. */
  lemma StripIndent(v: string)
    requires Strip(v) == v
    ensures CleanLine("  " + v) == CleanLine(v)
  {
    assert "  " + v == " " + (" " + v);
    SpaceGoes(" " + v);
    SpaceGoes(v);
  }

  lemma SpaceGoes(s: string)
    ensures Strip(" " + s) == Strip(s)
  {
    assert (" " + s)[1..] == s;
  }
}
