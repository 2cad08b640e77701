/**
 * How the three tools fit together: a block written by tools/llmlog_gen.py
 * passes tools/llmlog_validate.py, and `extract_blocks` of
 * tools/llmlog_parse.py reads it back as one record holding the values the
 * generator was given.
 */
module Roundtrip {
  import opened Wrappers
  import opened Text
  import opened Tags
  import opened Markers
  import LlmlogParse
  import LlmlogValidate
  import LlmlogGen

  // ----- the generated block passes the validator ---------------------------

  /** A line that does not start with `LLMLOG/` is no marker. */
  predicate Unmarked(line: string) {
    !StartsWith(line, "LLMLOG/")
  }

  lemma {:induction false} UnmarkedLines(lines: seq<string>)
    requires forall i :: 0 <= i < |lines| ==> Unmarked(lines[i])
    ensures LlmlogValidate.BeginRests(lines) == [] && LlmlogValidate.EndCount(lines) == 0
  {
    if lines != [] {
      MarkerLines("1", "0", lines[0]);
      forall i | 0 <= i < |lines[1..]|
        ensures Unmarked(lines[1..][i])
      {
        assert lines[1..][i] == lines[i + 1];
      }
      UnmarkedLines(lines[1..]);
    }
  }

  /** A line whose first character is not 'L' is no marker: an indented line, a fence or a label. */
  lemma UnmarkedStart(s: string)
    requires s == [] || s[0] != 'L'
    ensures Unmarked(s)
  {
    if |s| >= 7 {
      assert s[..7][0] == s[0];
    }
  }

  lemma IndentedUnmarked(x: string)
    ensures Unmarked("  " + x)
  {
    UnmarkedStart("  " + x);
  }

  /** The label and value lines of a layout. */
  function Middle(entry: string, mission: string, outcome: string): seq<string> {
    ["entry:", "  " + entry, "mission:", "  " + mission, "outcome:", "  " + outcome]
  }

  lemma LayoutParts(begin: string, entry: string, mission: string, outcome: string)
    ensures LlmlogGen.Layout(begin, entry, mission, outcome) + [""] ==
      ["```llmlog-meta"] + [begin] + Middle(entry, mission, outcome) + ["LLMLOG/1.0 END"] + ["```", ""]
  {
  }

  lemma MiddleUnmarked(entry: string, mission: string, outcome: string)
    ensures LlmlogValidate.BeginRests(Middle(entry, mission, outcome)) == []
    ensures LlmlogValidate.EndCount(Middle(entry, mission, outcome)) == 0
  {
    UnmarkedStart("entry:");
    UnmarkedStart("mission:");
    UnmarkedStart("outcome:");
    IndentedUnmarked(entry);
    IndentedUnmarked(mission);
    IndentedUnmarked(outcome);
    UnmarkedLines(Middle(entry, mission, outcome));
  }

  lemma FencesUnmarked()
    ensures LlmlogValidate.BeginRests(["```llmlog-meta"]) == [] && LlmlogValidate.EndCount(["```llmlog-meta"]) == 0
    ensures LlmlogValidate.BeginRests(["```", ""]) == [] && LlmlogValidate.EndCount(["```", ""]) == 0
  {
    UnmarkedStart("```llmlog-meta");
    UnmarkedStart("```");
    UnmarkedStart("");
    UnmarkedLines(["```llmlog-meta"]);
    UnmarkedLines(["```", ""]);
  }

  lemma BeginLineCounts(header: string)
    ensures LlmlogValidate.BeginRests(["LLMLOG/1.0 BEGIN " + header]) == [header]
    ensures LlmlogValidate.EndCount(["LLMLOG/1.0 BEGIN " + header]) == 0
  {
    var begin := "LLMLOG/1.0 BEGIN " + header;
    BeginLine(header);
    assert !IsEndLine(begin) by {
      BeginIsNotEnd(begin);
    }
    OneLine(begin);
  }

  /** The BEGIN groups and the END count of a single line. */
  lemma OneLine(line: string)
    ensures LlmlogValidate.BeginRests([line]) == (match BeginRest(line) case Some(x) => [x] case None => [])
    ensures LlmlogValidate.EndCount([line]) == (if IsEndLine(line) then 1 else 0)
  {
    assert [line][1..] == [];
  }

  lemma EndLineCounts()
    ensures LlmlogValidate.BeginRests(["LLMLOG/1.0 END"]) == []
    ensures LlmlogValidate.EndCount(["LLMLOG/1.0 END"]) == 1
  {
    var endLine: string := "LLMLOG/1.0 END";
    EndLineIsEnd();
    EndIsNotBegin(endLine);
    OneLine(endLine);
  }

  /** The counts of five consecutive groups of lines add up. */
  lemma CountsAdd(a: seq<string>, b: seq<string>, c: seq<string>, d: seq<string>, e: seq<string>)
    ensures LlmlogValidate.BeginRests(a + b + c + d + e) ==
      LlmlogValidate.BeginRests(a) + LlmlogValidate.BeginRests(b) + LlmlogValidate.BeginRests(c) +
      LlmlogValidate.BeginRests(d) + LlmlogValidate.BeginRests(e)
    ensures LlmlogValidate.EndCount(a + b + c + d + e) ==
      LlmlogValidate.EndCount(a) + LlmlogValidate.EndCount(b) + LlmlogValidate.EndCount(c) +
      LlmlogValidate.EndCount(d) + LlmlogValidate.EndCount(e)
  {
    LlmlogValidate.BeginRestsAppend(a, b);
    LlmlogValidate.BeginRestsAppend(a + b, c);
    LlmlogValidate.BeginRestsAppend(a + b + c, d);
    LlmlogValidate.BeginRestsAppend(a + b + c + d, e);
    LlmlogValidate.EndCountAppend(a, b);
    LlmlogValidate.EndCountAppend(a + b, c);
    LlmlogValidate.EndCountAppend(a + b + c, d);
    LlmlogValidate.EndCountAppend(a + b + c + d, e);
  }

  /** The layout around a BEGIN line: the BEGIN group is the header, and there is one END line. */
  lemma LayoutMarkers(header: string, entry: string, mission: string, outcome: string)
    ensures var lines := LlmlogGen.Layout("LLMLOG/1.0 BEGIN " + header, entry, mission, outcome) + [""];
      LlmlogValidate.BeginRests(lines) == [header] && LlmlogValidate.EndCount(lines) == 1
  {
    var begin := "LLMLOG/1.0 BEGIN " + header;
    LayoutParts(begin, entry, mission, outcome);
    MiddleUnmarked(entry, mission, outcome);
    FencesUnmarked();
    BeginLineCounts(header);
    EndLineCounts();
    CountsAdd(["```llmlog-meta"], [begin], Middle(entry, mission, outcome), ["LLMLOG/1.0 END"], ["```", ""]);
  }

  /** The generated header names the three keys the validator requires. */
  lemma GeneratedHeaderHasKeys(project: string, org: string, date: string, tagString: string)
    ensures LlmlogValidate.HasKeys(LlmlogGen.HeaderText(project, org, date, tagString))
  {
    var ws := LlmlogGen.HeaderTokens(project, org, date, tagString);
    assert ws[0] == "project=" + project && ws[1] == "organisation=" + org && ws[2] == "date=" + date;
    JoinContains(ws, " ", 0, "project=");
    JoinContains(ws, " ", 1, "organisation=");
    JoinContains(ws, " ", 2, "date=");
  }

  /**
   * A block written by the generator passes the validator, when the values
   * put on single lines (entry, mission, outcome, date and the tag string)
   * hold no newline; a newline-free `--tags` argument gives such a tag string
   * (`LlmlogGen.TagStringNoNewline`).
   */
  lemma GeneratedBlockValidates(argv: seq<string>, a: LlmlogGen.Args, order: seq<string>)
    requires |argv| == 2
    requires LlmlogGen.Enumerates(order, LlmlogGen.TagSet(a.tags))
    requires '\n' !in a.entry && '\n' !in a.mission && '\n' !in a.outcome && '\n' !in a.date
    requires '\n' !in LlmlogGen.TagString(a.tags, order)
    ensures LlmlogValidate.ExitCode(argv, LlmlogGen.Render(a, order)) == 0
  {
    var ts := LlmlogGen.TagString(a.tags, order);
    var header := LlmlogGen.HeaderText(LlmlogGen.Norm(a.project), LlmlogGen.Norm(a.org), a.date, ts);
    LlmlogGen.RenderLines(a, order);
    LayoutMarkers(header, Strip(a.entry), Strip(a.mission), Strip(a.outcome));
    GeneratedHeaderHasKeys(LlmlogGen.Norm(a.project), LlmlogGen.Norm(a.org), a.date, ts);
    PassesWith(LlmlogGen.Render(a, order), header);
  }

  /**
   * A text with exactly one BEGIN line, whose group has the keys, and one END
   * line passes. An unfolding of `Passes` for the round-trip lemmas above.
   */
  lemma PassesWith(text: string, header: string)
    requires LlmlogValidate.BeginRests(Split(text, '\n')) == [header]
    requires LlmlogValidate.EndCount(Split(text, '\n')) == 1
    requires LlmlogValidate.HasKeys(header)
    ensures LlmlogValidate.Passes(text)
  {
  }

  // ----- the generated header parses back -----------------------------------

  /** What each token of a generated header contributes to `parse_kv`. */
  function HeaderBindings(project: string, org: string, date: string, tagString: string): seq<Option<(string, string)>> {
    [Some(("project", project)), Some(("organisation", org)), Some(("date", date)), Some(("scope", "meta")), None] +
    (if tagString != "" then [Some(("tags", tagString))] else [])
  }

  lemma HeaderBindingsOf(project: string, org: string, date: string, tagString: string)
    requires NoSpace(project) && NoSpace(org) && NoSpace(date) && NoSpace(tagString)
    ensures LlmlogParse.Bindings(LlmlogGen.HeaderTokens(project, org, date, tagString)) ==
      HeaderBindings(project, org, date, tagString)
  {
    var ws := LlmlogGen.HeaderTokens(project, org, date, tagString);
    var hs := HeaderBindings(project, org, date, tagString);
    forall i | 0 <= i < |ws|
      ensures LlmlogParse.Binding(ws[i]) == hs[i]
    {
      TokenAt(project, org, date, tagString, i);
    }
  }

  /** Token `i` of a generated header binds what `HeaderBindings` lists at `i`. */
  lemma TokenAt(project: string, org: string, date: string, tagString: string, i: nat)
    requires NoSpace(project) && NoSpace(org) && NoSpace(date) && NoSpace(tagString)
    requires i < |LlmlogGen.HeaderTokens(project, org, date, tagString)|
    ensures LlmlogParse.Binding(LlmlogGen.HeaderTokens(project, org, date, tagString)[i]) ==
      HeaderBindings(project, org, date, tagString)[i]
  {
    if i == 0 {
      ProjectToken(project, org, date, tagString);
    } else if i == 1 {
      OrganisationToken(project, org, date, tagString);
    } else if i == 2 {
      DateToken(project, org, date, tagString);
    } else if i == 3 {
      ScopeToken(project, org, date, tagString);
    } else if i == 4 {
      IgnoreToken(project, org, date, tagString);
    } else {
      TagsToken(project, org, date, tagString);
    }
  }

  /** Token 0, `project=…`, binds `project`. */
  lemma ProjectToken(project: string, org: string, date: string, tagString: string)
    requires NoSpace(project)
    ensures LlmlogParse.Binding(LlmlogGen.HeaderTokens(project, org, date, tagString)[0]) == HeaderBindings(project, org, date, tagString)[0]
  {
    assert LlmlogGen.HeaderTokens(project, org, date, tagString)[0] == "project" + "=" + project;
    LlmlogParse.BindingOfPair("project", project);
  }

  /** Token 1, `organisation=…`, binds `organisation`. */
  lemma OrganisationToken(project: string, org: string, date: string, tagString: string)
    requires NoSpace(org)
    ensures LlmlogParse.Binding(LlmlogGen.HeaderTokens(project, org, date, tagString)[1]) == HeaderBindings(project, org, date, tagString)[1]
  {
    assert LlmlogGen.HeaderTokens(project, org, date, tagString)[1] == "organisation" + "=" + org;
    LlmlogParse.BindingOfPair("organisation", org);
  }

  /** Token 2, `date=…`, binds `date`. */
  lemma DateToken(project: string, org: string, date: string, tagString: string)
    requires NoSpace(date)
    ensures LlmlogParse.Binding(LlmlogGen.HeaderTokens(project, org, date, tagString)[2]) == HeaderBindings(project, org, date, tagString)[2]
  {
    assert LlmlogGen.HeaderTokens(project, org, date, tagString)[2] == "date" + "=" + date;
    LlmlogParse.BindingOfPair("date", date);
  }

  /** Token 3, `scope=meta`, binds `scope`. */
  lemma ScopeToken(project: string, org: string, date: string, tagString: string)
    ensures LlmlogParse.Binding(LlmlogGen.HeaderTokens(project, org, date, tagString)[3]) == HeaderBindings(project, org, date, tagString)[3]
  {
    assert LlmlogGen.HeaderTokens(project, org, date, tagString)[3] == "scope" + "=" + "meta";
    LlmlogParse.BindingOfPair("scope", "meta");
  }

  /** Token 4, `IGNORE_META`, has no '=' and binds nothing. */
  lemma IgnoreToken(project: string, org: string, date: string, tagString: string)
    ensures LlmlogParse.Binding(LlmlogGen.HeaderTokens(project, org, date, tagString)[4]) == HeaderBindings(project, org, date, tagString)[4]
  {
    assert '=' !in LlmlogGen.HeaderTokens(project, org, date, tagString)[4];
  }

  /** Token 5, present when the tag string is not empty, binds `tags`. */
  lemma TagsToken(project: string, org: string, date: string, tagString: string)
    requires NoSpace(tagString)
    requires 5 < |LlmlogGen.HeaderTokens(project, org, date, tagString)|
    ensures LlmlogParse.Binding(LlmlogGen.HeaderTokens(project, org, date, tagString)[5]) == HeaderBindings(project, org, date, tagString)[5]
  {
    assert LlmlogGen.HeaderTokens(project, org, date, tagString)[5] == "tags" + "=" + tagString;
    LlmlogParse.BindingOfPair("tags", tagString);
  }

  /** The dictionary the token loop fills for a generated header. */
  function HeaderMap(project: string, org: string, date: string, tagString: string): map<string, string> {
    var m := map["project" := project, "organisation" := org, "date" := date, "scope" := "meta"];
    if tagString != "" then m["tags" := tagString] else m
  }

  lemma CollectHeader(project: string, org: string, date: string, tagString: string)
    ensures LlmlogParse.Collect(HeaderBindings(project, org, date, tagString)) == HeaderMap(project, org, date, tagString)
  {
    var b1: seq<Option<(string, string)>> := [Some(("project", project))];
    var b2 := b1 + [Some(("organisation", org))];
    var b3 := b2 + [Some(("date", date))];
    var b4 := b3 + [Some(("scope", "meta"))];
    var b5 := b4 + [None];
    LlmlogParse.CollectSnoc([], Some(("project", project)));
    assert [] + b1 == b1;
    LlmlogParse.CollectSnoc(b1, Some(("organisation", org)));
    LlmlogParse.CollectSnoc(b2, Some(("date", date)));
    LlmlogParse.CollectSnoc(b3, Some(("scope", "meta")));
    LlmlogParse.CollectSnoc(b4, None);
    if tagString != "" {
      LlmlogParse.CollectSnoc(b5, Some(("tags", tagString)));
      assert HeaderBindings(project, org, date, tagString) == b5 + [Some(("tags", tagString))];
    } else {
      assert HeaderBindings(project, org, date, tagString) == b5;
    }
  }

  /** The header `parse_kv` reads, for plain values: four strings, and the `tags` list when there is one. */
  function HeaderKv(project: string, org: string, date: string, tags: Option<seq<string>>): LlmlogParse.Header {
    var h := map["project" := Str(project), "organisation" := Str(org), "date" := Str(date), "scope" := Str("meta")];
    match tags
    case Some(ts) => h["tags" := List(ts)]
    case None => h
  }

  lemma FixupsOnHeader(project: string, org: string, date: string, tagString: string)
    ensures LlmlogParse.ResolveTags(LlmlogParse.ResolveAliases(HeaderMap(project, org, date, tagString))) ==
      HeaderKv(project, org, date, if tagString != "" then Some(NormalisedTags(tagString)) else None)
  {
    var m := HeaderMap(project, org, date, tagString);
    assert LlmlogParse.ResolveAliases(m) == m by {
      assert "organisation" in m;
    }
    if tagString != "" {
      TagsOnHeader(project, org, date, tagString);
    } else {
      NoTagsOnHeader(project, org, date);
    }
  }

  lemma TagsOnHeader(project: string, org: string, date: string, tagString: string)
    requires tagString != ""
    ensures LlmlogParse.ResolveTags(HeaderMap(project, org, date, tagString)) ==
      HeaderKv(project, org, date, Some(NormalisedTags(tagString)))
  {
    var m := HeaderMap(project, org, date, tagString);
    var base := map["project" := Str(project), "organisation" := Str(org), "date" := Str(date), "scope" := Str("meta")];
    assert LlmlogParse.TagSource(m) == Some(tagString) by {
      assert "tags" in m && m["tags"] == tagString;
    }
    assert LlmlogParse.AsStrings(m) - {"tag"} == base["tags" := Str(tagString)];
  }

  lemma NoTagsOnHeader(project: string, org: string, date: string)
    ensures LlmlogParse.ResolveTags(HeaderMap(project, org, date, "")) == HeaderKv(project, org, date, None)
  {
    var m := HeaderMap(project, org, date, "");
    assert LlmlogParse.TagSource(m) == None by {
      assert "tags" !in m && "tag" !in m;
    }
  }

  /** The header line of the generator, for whitespace-free values, is already stripped. */
  lemma HeaderStripped(project: string, org: string, date: string, tagString: string)
    requires NoSpace(tagString)
    ensures Strip(LlmlogGen.HeaderText(project, org, date, tagString)) == LlmlogGen.HeaderText(project, org, date, tagString)
  {
    var ws := LlmlogGen.HeaderTokens(project, org, date, tagString);
    var h := LlmlogGen.HeaderText(project, org, date, tagString);
    assert ws[0] == "project=" + project;
    JoinHead(ws, " ");
    var last := ws[|ws| - 1];
    if tagString != "" {
      assert last == "tags=" + tagString;
      assert last[|last| - 1] == tagString[|tagString| - 1];
    } else {
      assert last == "IGNORE_META";
    }
    JoinLast(ws, " ");
    StripNoop(h);
  }

  /**
   * `parse_kv` of a header the generator could write, with whitespace-free
   * values: exactly the project, the organisation, the date and the scope as
   * strings, `IGNORE_META` dropped, and the tag string normalised when present.
   */
  lemma HeaderParses(project: string, org: string, date: string, tagString: string)
    requires NoSpace(project) && NoSpace(org) && NoSpace(date) && NoSpace(tagString)
    ensures LlmlogParse.ParsedKv(LlmlogGen.HeaderText(project, org, date, tagString)) ==
      HeaderKv(project, org, date, if tagString != "" then Some(NormalisedTags(tagString)) else None)
  {
    HeaderStripped(project, org, date, tagString);
    LlmlogGen.HeaderWords(project, org, date, tagString);
    HeaderBindingsOf(project, org, date, tagString);
    CollectHeader(project, org, date, tagString);
    FixupsOnHeader(project, org, date, tagString);
  }

  /**
   * The reference parser reads a generated header back: the `norm`ed project
   * and organisation, the date, `scope=meta`, and the generated tags in the
   * order they were written, when there are any.
   */
  lemma GeneratedHeaderParses(a: LlmlogGen.Args, order: seq<string>)
    requires LlmlogGen.Enumerates(order, LlmlogGen.TagSet(a.tags))
    requires NoSpace(a.date) && NoSpace(LlmlogGen.TagString(a.tags, order))
    ensures LlmlogParse.ParsedKv(LlmlogGen.HeaderText(LlmlogGen.Norm(a.project), LlmlogGen.Norm(a.org), a.date,
                                                      LlmlogGen.TagString(a.tags, order))) ==
      HeaderKv(LlmlogGen.Norm(a.project), LlmlogGen.Norm(a.org), a.date, if order != [] then Some(order) else None)
  {
    var ts := LlmlogGen.TagString(a.tags, order);
    LlmlogGen.NormNoSpace(a.project);
    LlmlogGen.NormNoSpace(a.org);
    LlmlogGen.TagStringEmpty(a.tags, order);
    LlmlogGen.EnumeratesEmpty(order, LlmlogGen.TagSet(a.tags));
    LlmlogGen.TagStringTags(a.tags, order);
    HeaderParses(LlmlogGen.Norm(a.project), LlmlogGen.Norm(a.org), a.date, ts);
  }

  // ----- the generated block parses back ------------------------------------

  /**
   * What `grab` reads back from a value the generator printed on its indented
   * line: the value stripped, as the generator strips it, then cleaned of
   * quote characters at its ends and stripped again, as `grab` cleans a line.
   */
  function Reread(v: string): string {
    Strip(LlmlogParse.CleanLine(Strip(v)))
  }

  /** A value that is already stripped and neither starts nor ends with a quote character is read back unchanged. */
  lemma RereadPlain(v: string)
    requires Strip(v) == v
    requires v == "" || (v[0] !in LlmlogParse.Quotes && v[|v| - 1] !in LlmlogParse.Quotes)
    ensures Reread(v) == v
  {
    TrimLeftNoop(v, LlmlogParse.Quotes);
    TrimRightNoop(v, LlmlogParse.Quotes);
  }

  /**
   * The generator's output, read by `extract_blocks`, is one record: version
   * `1.0`, the header as `parse_kv` reads it back, and each of entry, mission
   * and outcome as `Reread` gives it, when the section values hold no newline
   * and the date and the tag string hold no whitespace.
   */
  lemma GeneratedBlockParses(a: LlmlogGen.Args, order: seq<string>)
    requires LlmlogGen.Enumerates(order, LlmlogGen.TagSet(a.tags))
    requires '\n' !in a.entry && '\n' !in a.mission && '\n' !in a.outcome
    requires NoSpace(a.date) && NoSpace(LlmlogGen.TagString(a.tags, order))
    ensures LlmlogParse.Records(LlmlogGen.Render(a, order)) ==
      [LlmlogParse.Assemble("1.0",
         HeaderKv(LlmlogGen.Norm(a.project), LlmlogGen.Norm(a.org), a.date, if order != [] then Some(order) else None),
         Reread(a.entry), Reread(a.mission), Reread(a.outcome))]
  {
    var ts := LlmlogGen.TagString(a.tags, order);
    var header := LlmlogGen.HeaderText(LlmlogGen.Norm(a.project), LlmlogGen.Norm(a.org), a.date, ts);
    NoSpaceAbsent(a.date, '\n');
    NoSpaceAbsent(ts, '\n');
    LlmlogGen.RenderLines(a, order);
    GeneratedHeaderLine(a, ts);
    StripIdempotent(a.entry);
    StripIdempotent(a.mission);
    StripIdempotent(a.outcome);
    StripKeepsAbsent(a.entry, '\n');
    StripKeepsAbsent(a.mission, '\n');
    StripKeepsAbsent(a.outcome, '\n');
    LayoutRecord(header, Strip(a.entry), Strip(a.mission), Strip(a.outcome));
    GeneratedHeaderParses(a, order);
  }

  /** The generated header is a non-empty line. */
  lemma GeneratedHeaderLine(a: LlmlogGen.Args, ts: string)
    requires '\n' !in a.date && '\n' !in ts
    ensures var header := LlmlogGen.HeaderText(LlmlogGen.Norm(a.project), LlmlogGen.Norm(a.org), a.date, ts);
      header != "" && '\n' !in header
  {
    var ws := LlmlogGen.HeaderTokens(LlmlogGen.Norm(a.project), LlmlogGen.Norm(a.org), a.date, ts);
    assert ws[0] == "project=" + LlmlogGen.Norm(a.project);
    JoinHead(ws, " ");
    LlmlogGen.NormNoSpace(a.project);
    LlmlogGen.NormNoSpace(a.org);
    NoSpaceAbsent(LlmlogGen.Norm(a.project), '\n');
    NoSpaceAbsent(LlmlogGen.Norm(a.org), '\n');
    LlmlogGen.HeaderSingle(LlmlogGen.Norm(a.project), LlmlogGen.Norm(a.org), a.date, ts);
  }

  /**
   * `extract_blocks` on the lines of a layout with a one-line header and
   * stripped one-line values: the one record of its BEGIN and END lines.
   */
  lemma LayoutRecord(header: string, entry: string, mission: string, outcome: string)
    requires header != "" && '\n' !in header
    requires Strip(entry) == entry && Strip(mission) == mission && Strip(outcome) == outcome
    requires '\n' !in entry && '\n' !in mission && '\n' !in outcome
    ensures var lines := LlmlogGen.Layout("LLMLOG/1.0 BEGIN " + header, entry, mission, outcome) + [""];
      LlmlogParse.RecordsOf(lines, LlmlogParse.Pairs(lines)) ==
        [LlmlogParse.Assemble("1.0", LlmlogParse.ParsedKv(header),
           Strip(LlmlogParse.CleanLine(entry)), Strip(LlmlogParse.CleanLine(mission)), Strip(LlmlogParse.CleanLine(outcome)))]
  {
    var begin := "LLMLOG/1.0 BEGIN " + header;
    var lines := LlmlogGen.Layout(begin, entry, mission, outcome) + [""];
    BeginSingle(header);
    LayoutKinds(header, entry, mission, outcome);
    LlmlogParse.OneBlock(lines, 1, 8);
    var m := LayoutMatch(header, entry, mission, outcome);
    LayoutBody(begin, entry, mission, outcome);
    LlmlogParse.RecordIs(lines, LlmlogParse.Pair(m, 8), "1.0", LlmlogParse.ParsedKv(header),
      Strip(LlmlogParse.CleanLine(entry)), Strip(LlmlogParse.CleanLine(mission)), Strip(LlmlogParse.CleanLine(outcome)));
  }

  lemma BeginSingle(header: string)
    requires '\n' !in header
    ensures '\n' !in "LLMLOG/1.0 BEGIN " + header
  {
    LlmlogGen.PrefixSingle("LLMLOG/1.0 BEGIN ", header);
  }

  /** The layout's BEGIN match: line 1, version `1.0`, and the header as its `kv` group. */
  lemma LayoutMatch(header: string, entry: string, mission: string, outcome: string) returns (m: LlmlogParse.BeginMatch)
    requires header != ""
    ensures var lines := LlmlogGen.Layout("LLMLOG/1.0 BEGIN " + header, entry, mission, outcome) + [""];
      LlmlogParse.IsBeginLine(lines[1]) && m == LlmlogParse.MatchAt(lines, 1) && m == LlmlogParse.BeginMatch(1, "1.0", header)
  {
    BeginLine(header);
    m := LlmlogParse.BeginMatch(1, "1.0", header);
  }

  /** The layout's lines, and only its BEGIN and END lines are markers. */
  lemma LayoutKinds(header: string, entry: string, mission: string, outcome: string)
    requires header != ""
    ensures var lines := LlmlogGen.Layout("LLMLOG/1.0 BEGIN " + header, entry, mission, outcome) + [""];
      (forall t :: 0 <= t < |lines| ==> (LlmlogParse.IsBeginLine(lines[t]) <==> t == 1)) &&
      (forall t :: 0 <= t < |lines| ==> (IsEndLine(lines[t]) <==> t == 8))
  {
    var lines := LlmlogGen.Layout("LLMLOG/1.0 BEGIN " + header, entry, mission, outcome) + [""];
    forall t | 0 <= t < |lines|
      ensures (LlmlogParse.IsBeginLine(lines[t]) <==> t == 1) && (IsEndLine(lines[t]) <==> t == 8)
    {
      LineKind(header, entry, mission, outcome, t);
    }
  }

  lemma LineKind(header: string, entry: string, mission: string, outcome: string, t: nat)
    requires header != "" && t < 11
    ensures var line := (LlmlogGen.Layout("LLMLOG/1.0 BEGIN " + header, entry, mission, outcome) + [""])[t];
      (LlmlogParse.IsBeginLine(line) <==> t == 1) && (IsEndLine(line) <==> t == 8)
  {
    var line := (LlmlogGen.Layout("LLMLOG/1.0 BEGIN " + header, entry, mission, outcome) + [""])[t];
    if t == 1 {
      BeginLine(header);
      BeginIsNotEnd(line);
    } else if t == 8 {
      EndLineIsEnd();
      EndIsNotBegin(line);
    } else {
      assert line == [] || line[0] != 'L';
      UnmarkedStart(line);
      MarkerLines("1", "0", line);
    }
  }

  /** The generator's END line is an END line. */
  lemma EndLineIsEnd()
    ensures IsEndLine("LLMLOG/1.0 END")
  {
    EndMarker("1", "0", "");
    assert "LLMLOG/" + "1" + "." + "0" + " END" + "" == "LLMLOG/1.0 END";
    assert AllSpace("");
  }

  /** The body of the layout's block, split into lines, and the three values `grab` takes from it. */
  lemma LayoutBody(begin: string, entry: string, mission: string, outcome: string)
    requires '\n' !in begin && '\n' !in entry && '\n' !in mission && '\n' !in outcome
    requires Strip(entry) == entry && Strip(mission) == mission && Strip(outcome) == outcome
    ensures var body := LlmlogParse.BodyText(LlmlogGen.Layout(begin, entry, mission, outcome) + [""], 1, 8);
      LlmlogParse.Grab(body, "entry") == Strip(LlmlogParse.CleanLine(entry)) &&
      LlmlogParse.Grab(body, "mission") == Strip(LlmlogParse.CleanLine(mission)) &&
      LlmlogParse.Grab(body, "outcome") == Strip(LlmlogParse.CleanLine(outcome))
  {
    LayoutBodyLines(begin, entry, mission, outcome);
    BodyGrabs(entry, mission, outcome);
  }

  /** The lines of the layout's block body. */
  lemma LayoutBodyLines(begin: string, entry: string, mission: string, outcome: string)
    requires '\n' !in begin && '\n' !in entry && '\n' !in mission && '\n' !in outcome
    ensures Split(LlmlogParse.BodyText(LlmlogGen.Layout(begin, entry, mission, outcome) + [""], 1, 8), '\n') ==
      BodyOf(entry, mission, outcome)
  {
    var lines := LlmlogGen.Layout(begin, entry, mission, outcome) + [""];
    LayoutLinesSingle(begin, entry, mission, outcome);
    LlmlogParse.BodyLines(lines, 1, 8);
    BodyOfLayout(begin, entry, mission, outcome);
  }

  /** What `grab` takes from the layout's body lines for each of the three names. */
  lemma BodyGrabs(entry: string, mission: string, outcome: string)
    requires '\n' !in entry && '\n' !in mission && '\n' !in outcome
    requires Strip(entry) == entry && Strip(mission) == mission && Strip(outcome) == outcome
    ensures var b := BodyOf(entry, mission, outcome);
      LlmlogParse.GrabLines(b, "entry") == Strip(LlmlogParse.CleanLine(entry)) &&
      LlmlogParse.GrabLines(b, "mission") == Strip(LlmlogParse.CleanLine(mission)) &&
      LlmlogParse.GrabLines(b, "outcome") == Strip(LlmlogParse.CleanLine(outcome))
  {
    EntrySection(entry, mission, outcome);
    MissionSection(entry, mission, outcome);
    OutcomeSection(entry, mission, outcome);
  }

  lemma LayoutLinesSingle(begin: string, entry: string, mission: string, outcome: string)
    requires '\n' !in begin && '\n' !in entry && '\n' !in mission && '\n' !in outcome
    ensures var lines := LlmlogGen.Layout(begin, entry, mission, outcome) + [""];
      forall i :: 0 <= i < |lines| ==> '\n' !in lines[i]
  {
    var layout := LlmlogGen.Layout(begin, entry, mission, outcome);
    LlmlogGen.LayoutSingle(begin, entry, mission, outcome);
    forall i | 0 <= i < |layout + [""]|
      ensures '\n' !in (layout + [""])[i]
    {
      if i < 10 {
        assert (layout + [""])[i] == layout[i];
      }
    }
  }

  lemma BodyOfLayout(begin: string, entry: string, mission: string, outcome: string)
    ensures var lines := LlmlogGen.Layout(begin, entry, mission, outcome) + [""];
      [""] + lines[2..8] + [""] == BodyOf(entry, mission, outcome)
  {
    var layout := LlmlogGen.Layout(begin, entry, mission, outcome);
    assert (layout + [""])[2..8] == layout[2..8];
    assert layout[2..8] == ["entry:", "  " + entry, "mission:", "  " + mission, "outcome:", "  " + outcome];
  }

  lemma BodyOfSingle(entry: string, mission: string, outcome: string)
    requires '\n' !in entry && '\n' !in mission && '\n' !in outcome
    ensures forall i :: 0 <= i < |BodyOf(entry, mission, outcome)| ==> '\n' !in BodyOf(entry, mission, outcome)[i]
  {
  }

  /** The body lines between the BEGIN and END lines of a layout, with the empty pieces at both ends. */
  function BodyOf(entry: string, mission: string, outcome: string): seq<string> {
    ["", "entry:", "  " + entry, "mission:", "  " + mission, "outcome:", "  " + outcome, ""]
  }

  lemma EntrySection(entry: string, mission: string, outcome: string)
    requires '\n' !in entry && '\n' !in mission && '\n' !in outcome && Strip(entry) == entry
    ensures LlmlogParse.GrabLines(BodyOf(entry, mission, outcome), "entry") == Strip(LlmlogParse.CleanLine(entry))
  {
    var b := BodyOf(entry, mission, outcome);
    BodyOfSingle(entry, mission, outcome);
    WordColon("mission");
    assert "mission" + ":" == "mission:";
    NotLabel(b[0], "entry");
    LlmlogParse.GrabIndented(b, "entry", 1, entry);
  }

  lemma MissionSection(entry: string, mission: string, outcome: string)
    requires '\n' !in entry && '\n' !in mission && '\n' !in outcome && Strip(mission) == mission
    ensures LlmlogParse.GrabLines(BodyOf(entry, mission, outcome), "mission") == Strip(LlmlogParse.CleanLine(mission))
  {
    var b := BodyOf(entry, mission, outcome);
    BodyOfSingle(entry, mission, outcome);
    WordColon("outcome");
    assert "outcome" + ":" == "outcome:";
    NotLabel(b[0], "mission");
    NotLabel(b[1], "mission");
    NotLabel(b[2], "mission");
    LlmlogParse.GrabIndented(b, "mission", 3, mission);
  }

  lemma OutcomeSection(entry: string, mission: string, outcome: string)
    requires '\n' !in entry && '\n' !in mission && '\n' !in outcome && Strip(outcome) == outcome
    ensures LlmlogParse.GrabLines(BodyOf(entry, mission, outcome), "outcome") == Strip(LlmlogParse.CleanLine(outcome))
  {
    var b := BodyOf(entry, mission, outcome);
    BodyOfSingle(entry, mission, outcome);
    NotLabel(b[0], "outcome");
    NotLabel(b[1], "outcome");
    NotLabel(b[2], "outcome");
    NotLabel(b[3], "outcome");
    NotLabel(b[4], "outcome");
    LlmlogParse.GrabIndented(b, "outcome", 5, outcome);
  }

  /** A line that is empty or starts with another character than `name` is no `name:` line. */
  lemma NotLabel(line: string, name: string)
    requires name != "" && (line == [] || line[0] != name[0])
    ensures !LlmlogParse.IsLabelLine(line, name)
  {
    if |line| >= |name| + 1 {
      assert line[..|name| + 1][0] == line[0];
    }
  }

  /** A word followed by a colon is a `^\w+:` line. */
  lemma WordColon(w: string)
    requires w != "" && forall i :: 0 <= i < |w| ==> IsWordChar(w[i])
    ensures LlmlogParse.IsWordColonLine(w + ":")
  {
    WordRunColon(w);
  }

  lemma {:induction false} WordRunColon(w: string)
    requires forall i :: 0 <= i < |w| ==> IsWordChar(w[i])
    ensures LlmlogParse.WordRun(w + ":") == |w|
  {
    if w != [] {
      assert (w + ":")[1..] == w[1..] + ":";
      WordRunColon(w[1..]);
    }
  }
}
