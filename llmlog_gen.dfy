/**
 * tools/llmlog_gen.py: renders one LLMLOG block from command-line values. The
 * project and organisation are normalised by `norm`, the tags become a
 * comma-joined set, and the block is a fixed sequence of printed lines.
 */
module LlmlogGen {
  import opened Text
  import opened Tags

  // ----- norm ---------------------------------------------------------------

  /** The characters `norm` keeps: `[A-Za-z0-9._-]`. */
  predicate IsKept(c: char) {
    IsLetter(c) || IsDigit(c) || c == '.' || c == '_' || c == '-'
  }

  /** The characters a normalised string is made of: `[a-z0-9._-]`. */
  predicate IsNormChar(c: char) {
    ('a' <= c <= 'z') || IsDigit(c) || c == '.' || c == '_' || c == '-'
  }

  /** `rx.sub('-', s).lower()`: every character outside `[A-Za-z0-9._-]` becomes '-', then all is lowercased. */
  function Norm(s: string): (r: string)
    ensures |r| == |s|
  {
    LowerStr(seq(|s|, i requires 0 <= i < |s| => if IsKept(s[i]) then s[i] else '-'))
  }

  /** Each character of `norm(s)` is the lowercase of the input character when that is kept, and '-' otherwise. */
  lemma NormChars(s: string)
    ensures forall i :: 0 <= i < |s| ==> Norm(s)[i] == (if IsKept(s[i]) then Lower(s[i]) else '-')
    ensures forall i :: 0 <= i < |s| ==> IsNormChar(Norm(s)[i])
  {
  }

  /** A string is its own `norm` exactly when it is made of `[a-z0-9._-]`. */
  lemma NormFixed(s: string)
    ensures Norm(s) == s <==> forall i :: 0 <= i < |s| ==> IsNormChar(s[i])
  {
    NormChars(s);
    if forall i :: 0 <= i < |s| ==> IsNormChar(s[i]) {
      forall i | 0 <= i < |s|
        ensures Norm(s)[i] == s[i]
      {
      }
    }
  }

  /** `norm` is idempotent. */
  lemma NormIdempotent(s: string)
    ensures Norm(Norm(s)) == Norm(s)
  {
    NormChars(s);
    NormFixed(Norm(s));
  }

  /** `norm` never yields whitespace, so a normalised value is one header token. */
  lemma NormNoSpace(s: string)
    ensures NoSpace(Norm(s)) && '\n' !in Norm(s)
  {
    NormChars(s);
  }

  // ----- the tag string -----------------------------------------------------

  /** `{t.strip().lower() for t in a.tags.split(",") if t.strip()}`. */
  function TagSet(tags: string): set<string> {
    set t | t in CleanPieces(tags)
  }

  /** `order` lists the set `s`, each member once: one of the orders a set iterates in. */
  ghost predicate Enumerates(order: seq<string>, s: set<string>) {
    NoDup(order) && forall t :: t in order <==> t in s
  }

  /**
   * `",".join(<tag set>) if a.tags else ""`, with `order` the iteration order
   * of the set, which Python leaves unspecified.
   */
  function TagString(tags: string, order: seq<string>): string
    requires Enumerates(order, TagSet(tags))
  {
    if tags == "" then "" else Join(order, ",")
  }

  /** A tag is in the set exactly when some comma-separated piece strips to a non-empty string that lowercases to it. */
  lemma TagSetMembers(tags: string, pieces: seq<string>, x: string)
    requires pieces == Split(tags, ',')
    ensures x in TagSet(tags) <==> exists i :: 0 <= i < |pieces| && Yields(pieces[i], x)
  {
    CleanMembers(pieces, x);
    assert x in TagSet(tags) <==> x in Clean(pieces);
  }

  /** Every tag of the set is non-empty, stripped, lowercase and comma-free. */
  lemma TagSetClean(tags: string, t: string)
    requires t in TagSet(tags)
    ensures IsCleanTag(t)
  {
    var pieces := Split(tags, ',');
    CleanShape(pieces);
    var c := Clean(pieces);
    assert t in c;
    var i :| 0 <= i < |c| && c[i] == t;
  }

  lemma EmptyTagSet()
    ensures TagSet("") == {}
  {
    assert Split("", ',') == [""];
    assert Strip("") == "";
    assert CleanPieces("") == [];
  }

  /** Only the empty list enumerates the empty set. */
  lemma EnumeratesEmpty(order: seq<string>, s: set<string>)
    requires Enumerates(order, s)
    ensures order == [] <==> s == {}
  {
    if order != [] {
      assert order[0] in s;
    } else {
      forall t | t in s
        ensures t in order
      {
      }
    }
  }

  /** The tag string is empty exactly when the set is. */
  lemma TagStringEmpty(tags: string, order: seq<string>)
    requires Enumerates(order, TagSet(tags))
    ensures TagString(tags, order) == "" <==> TagSet(tags) == {}
  {
    if order == [] {
      assert TagSet(tags) == {} by {
        forall t | t in TagSet(tags)
          ensures t in order
        {
        }
      }
      assert Join(order, ",") == "";
    } else {
      assert order[0] in TagSet(tags);
      TagSetClean(tags, order[0]);
      JoinHead(order, ",");
      if tags == "" {
        EmptyTagSet();
      }
    }
  }

  /**
   * The tag string holds each tag of the set exactly once, whatever the order:
   * normalising it the way the parsers do gives the order back.
   */
  lemma TagStringTags(tags: string, order: seq<string>)
    requires Enumerates(order, TagSet(tags))
    ensures NormalisedTags(TagString(tags, order)) == order
  {
    forall i | 0 <= i < |order|
      ensures IsCleanTag(order[i])
    {
      assert order[i] in TagSet(tags);
      TagSetClean(tags, order[i]);
    }
    NormaliseJoinFixed(order);
    if tags == "" {
      EmptyTagSet();
      EnumeratesEmpty(order, TagSet(tags));
      assert NormalisedTags("") == [] by {
        NormaliseJoinFixed([]);
      }
    }
  }

  /** The generator and the parsers agree on the tags: the generated string normalises to the same set as the argument. */
  lemma TagStringAgrees(tags: string, order: seq<string>, x: string)
    requires Enumerates(order, TagSet(tags))
    ensures x in NormalisedTags(TagString(tags, order)) <==> x in NormalisedTags(tags)
  {
    TagStringTags(tags, order);
    assert x in NormalisedTags(tags) <==> x in CleanPieces(tags);
  }

  /** A tag cleaned from a piece without character `c` lacks `c` too, unless `c` is a lowercase letter. */
  lemma YieldsAvoids(p: string, x: string, c: char)
    requires c !in p && !('a' <= c <= 'z') && Yields(p, x)
    ensures c !in x
  {
    StripKeepsAbsent(p, c);
    var u := Strip(p);
    forall k | 0 <= k < |x|
      ensures x[k] != c
    {
      assert x[k] == Lower(u[k]);
      assert u[k] in u;
    }
  }

  /** A character that is not a lowercase letter, ',' excepted, is in the tag string only if it is in the argument. */
  lemma TagStringAvoids(tags: string, order: seq<string>, c: char)
    requires Enumerates(order, TagSet(tags)) && c !in tags && c != ',' && !('a' <= c <= 'z')
    ensures c !in TagString(tags, order)
  {
    var pieces := Split(tags, ',');
    forall i | 0 <= i < |order|
      ensures c !in order[i]
    {
      var x := order[i];
      assert x in TagSet(tags);
      TagSetMembers(tags, pieces, x);
      var k :| 0 <= k < |pieces| && Yields(pieces[k], x);
      SplitPieceAbsent(tags, ',', c, k);
      YieldsAvoids(pieces[k], x, c);
    }
    JoinAbsent(order, ",", c);
  }

  /** Without a newline in the tags argument, the tag string has none. */
  lemma TagStringNoNewline(tags: string, order: seq<string>)
    requires Enumerates(order, TagSet(tags)) && '\n' !in tags
    ensures '\n' !in TagString(tags, order)
  {
    TagStringAvoids(tags, order, '\n');
  }

  /** Without whitespace in the tags argument, the tag string has none. */
  lemma TagStringNoSpace(tags: string, order: seq<string>)
    requires Enumerates(order, TagSet(tags)) && NoSpace(tags)
    ensures NoSpace(TagString(tags, order))
  {
    var ts := TagString(tags, order);
    forall k | 0 <= k < |ts|
      ensures !IsSpace(ts[k])
    {
      SpaceAvoided(tags, order, ts[k]);
    }
  }

  /** A whitespace character is not in the tag string of a whitespace-free argument. */
  lemma SpaceAvoided(tags: string, order: seq<string>, c: char)
    requires Enumerates(order, TagSet(tags)) && NoSpace(tags)
    ensures IsSpace(c) ==> c !in TagString(tags, order)
  {
    if IsSpace(c) {
      SpaceIsNoTagChar(c);
      NoSpaceAbsent(tags, c);
      TagStringAvoids(tags, order, c);
    }
  }

  /** Whitespace is neither ',' nor a lowercase letter. */
  lemma SpaceIsNoTagChar(c: char)
    requires IsSpace(c)
    ensures c != ',' && !('a' <= c <= 'z')
  {
  }

  // ----- the block ----------------------------------------------------------

  /** The values the command line supplies (the date as a string: its default is the clock). */
  datatype Args = Args(entry: string, project: string, org: string, mission: string,
                       outcome: string, tags: string, date: string)

  /** The argparse defaults: only the entry and the date are given. */
  function Defaults(entry: string, date: string): (a: Args)
    ensures a.entry == entry && a.date == date
    ensures a.project == "tech-llm" && a.org == "essencenetworks"
    ensures a.mission == "" && a.outcome == "" && a.tags == ""
  {
    Args(entry, "tech-llm", "essencenetworks", "", "", "", date)
  }

  /**
   * The fields of the generated header, in order: `norm`ed project and
   * organisation, the date, `scope=meta`, the bare `IGNORE_META`, and
   * `tags=…` only for a non-empty tag string.
   */
  function HeaderTokens(project: string, org: string, date: string, tagString: string): seq<string> {
    ["project=" + project, "organisation=" + org, "date=" + date, "scope=meta", "IGNORE_META"] +
    (if tagString != "" then ["tags=" + tagString] else [])
  }

  /** The header after `LLMLOG/1.0 BEGIN `: the f-string's fields, separated by single spaces. */
  function HeaderText(project: string, org: string, date: string, tagString: string): string {
    Join(HeaderTokens(project, org, date, tagString), " ")
  }

  /** `begin`: the BEGIN line, with `norm` applied to the project and the organisation. */
  function BeginLine(a: Args, tagString: string): string {
    "LLMLOG/1.0 BEGIN " + HeaderText(Norm(a.project), Norm(a.org), a.date, tagString)
  }

  /** The fixed line layout of a block around its BEGIN line and the three stripped values. */
  function Layout(begin: string, entry: string, mission: string, outcome: string): (r: seq<string>)
    ensures |r| == 10
  {
    ["```llmlog-meta", begin,
     "entry:", "  " + entry,
     "mission:", "  " + mission,
     "outcome:", "  " + outcome,
     "LLMLOG/1.0 END", "```"]
  }

  /** The printed lines, in order (a value may itself hold newlines). */
  function BlockLines(a: Args, tagString: string): seq<string> {
    Layout(BeginLine(a, tagString), Strip(a.entry), Strip(a.mission), Strip(a.outcome))
  }

  /** What the script writes to stdout: each line followed by a newline. */
  function Render(a: Args, order: seq<string>): string
    requires Enumerates(order, TagSet(a.tags))
  {
    Join(BlockLines(a, TagString(a.tags, order)), "\n") + "\n"
  }

  /** The default project and organisation are already `norm`ed. */
  lemma DefaultsNormed()
    ensures Norm("tech-llm") == "tech-llm" && Norm("essencenetworks") == "essencenetworks"
  {
    NormFixed("tech-llm");
    NormFixed("essencenetworks");
  }

  /** The BEGIN line of the default invocation, which names no tags. */
  lemma DefaultBeginLine(entry: string, date: string)
    ensures BeginLine(Defaults(entry, date), "") ==
      "LLMLOG/1.0 BEGIN " + (("project=" + "tech-llm") + " " + ("organisation=" + "essencenetworks") + " " +
        ("date=" + date) + " " + "scope=meta" + " " + "IGNORE_META")
  {
    DefaultsNormed();
    HeaderNoTags("tech-llm", "essencenetworks", date);
  }

  /** Without tags the header is the five fixed fields, separated by single spaces. */
  lemma HeaderNoTags(project: string, org: string, date: string)
    ensures HeaderText(project, org, date, "") ==
      ("project=" + project) + " " + ("organisation=" + org) + " " + ("date=" + date) + " " + "scope=meta" + " " + "IGNORE_META"
  {
    var ts := HeaderTokens(project, org, date, "");
    assert ts == ["project=" + project, "organisation=" + org, "date=" + date, "scope=meta", "IGNORE_META"];
    JoinFive(ts[0], ts[1], ts[2], ts[3], ts[4], " ");
  }

  /** `Join` of five parts, written out. */
  lemma JoinFive(a: string, b: string, c: string, d: string, e: string, sep: string)
    ensures Join([a, b, c, d, e], sep) == a + sep + b + sep + c + sep + d + sep + e
  {
    assert Join([a], sep) == a;
    assert [a] + [b] == [a, b];
    JoinSnoc([a], b, sep);
    assert [a, b] + [c] == [a, b, c];
    JoinSnoc([a, b], c, sep);
    assert [a, b, c] + [d] == [a, b, c, d];
    JoinSnoc([a, b, c], d, sep);
    assert [a, b, c, d] + [e] == [a, b, c, d, e];
    JoinSnoc([a, b, c, d], e, sep);
  }

  /**
   * What `llmlog_gen.py "<entry>"` prints when only the entry is given and the
   * clock reads `date`: an empty tag set, no `tags=`, and empty mission and
   * outcome lines.
   */
  lemma DefaultRender(entry: string, date: string)
    ensures Enumerates([], TagSet("")) && TagString("", []) == ""
    ensures var begin := "LLMLOG/1.0 BEGIN " + (("project=" + "tech-llm") + " " + ("organisation=" + "essencenetworks") + " " +
        ("date=" + date) + " " + "scope=meta" + " " + "IGNORE_META");
      Render(Defaults(entry, date), []) ==
        "```llmlog-meta" + "\n" + begin + "\n" +
        "entry:" + "\n" + ("  " + Strip(entry)) + "\n" +
        "mission:" + "\n" + "  " + "\n" +
        "outcome:" + "\n" + "  " + "\n" +
        "LLMLOG/1.0 END" + "\n" + "```" + "\n"
  {
    EmptyTagSet();
    var a := Defaults(entry, date);
    var b := BeginLine(a, "");
    DefaultBeginLine(entry, date);
    assert Strip("") == "" && "  " + Strip("") == "  ";
    assert Strip(a.mission) == "" && Strip(a.outcome) == "" && a.entry == entry;
    var ls := BlockLines(a, "");
    assert ls == ["```llmlog-meta", b, "entry:", "  " + Strip(entry), "mission:", "  ", "outcome:", "  ", "LLMLOG/1.0 END", "```"];
    JoinTen(ls[0], ls[1], ls[2], ls[3], ls[4], ls[5], ls[6], ls[7], ls[8], ls[9], "\n");
    assert Render(a, []) == Join(ls, "\n") + "\n";
  }

  /** `Join` of ten lines, written out. */
  lemma JoinTen(l0: string, l1: string, l2: string, l3: string, l4: string,
                l5: string, l6: string, l7: string, l8: string, l9: string, sep: string)
    ensures Join([l0, l1, l2, l3, l4, l5, l6, l7, l8, l9], sep) ==
      l0 + sep + l1 + sep + l2 + sep + l3 + sep + l4 + sep + l5 + sep + l6 + sep + l7 + sep + l8 + sep + l9
  {
    assert Join([l0], sep) == l0;
    assert [l0] + [l1] == [l0, l1];
    JoinSnoc([l0], l1, sep);
    assert [l0, l1] + [l2] == [l0, l1, l2];
    JoinSnoc([l0, l1], l2, sep);
    assert [l0, l1, l2] + [l3] == [l0, l1, l2, l3];
    JoinSnoc([l0, l1, l2], l3, sep);
    assert [l0, l1, l2, l3] + [l4] == [l0, l1, l2, l3, l4];
    JoinSnoc([l0, l1, l2, l3], l4, sep);
    assert [l0, l1, l2, l3, l4] + [l5] == [l0, l1, l2, l3, l4, l5];
    JoinSnoc([l0, l1, l2, l3, l4], l5, sep);
    assert [l0, l1, l2, l3, l4, l5] + [l6] == [l0, l1, l2, l3, l4, l5, l6];
    JoinSnoc([l0, l1, l2, l3, l4, l5], l6, sep);
    assert [l0, l1, l2, l3, l4, l5, l6] + [l7] == [l0, l1, l2, l3, l4, l5, l6, l7];
    JoinSnoc([l0, l1, l2, l3, l4, l5, l6], l7, sep);
    assert [l0, l1, l2, l3, l4, l5, l6, l7] + [l8] == [l0, l1, l2, l3, l4, l5, l6, l7, l8];
    JoinSnoc([l0, l1, l2, l3, l4, l5, l6, l7], l8, sep);
    assert [l0, l1, l2, l3, l4, l5, l6, l7, l8] + [l9] == [l0, l1, l2, l3, l4, l5, l6, l7, l8, l9];
    JoinSnoc([l0, l1, l2, l3, l4, l5, l6, l7, l8], l9, sep);
  }

  /** Splitting the header on whitespace gives its fields back when no value holds whitespace. */
  lemma HeaderWords(project: string, org: string, date: string, tagString: string)
    requires NoSpace(project) && NoSpace(org) && NoSpace(date) && NoSpace(tagString)
    ensures Words(HeaderText(project, org, date, tagString)) == HeaderTokens(project, org, date, tagString)
  {
    HeaderTokensAreWords(project, org, date, tagString);
    WordsJoin(HeaderTokens(project, org, date, tagString));
  }

  lemma HeaderTokensAreWords(project: string, org: string, date: string, tagString: string)
    requires NoSpace(project) && NoSpace(org) && NoSpace(date) && NoSpace(tagString)
    ensures forall i :: 0 <= i < |HeaderTokens(project, org, date, tagString)| ==>
      HeaderTokens(project, org, date, tagString)[i] != "" && NoSpace(HeaderTokens(project, org, date, tagString)[i])
  {
    var ws := HeaderTokens(project, org, date, tagString);
    NoSpaceConcat("project=", project);
    NoSpaceConcat("organisation=", org);
    NoSpaceConcat("date=", date);
    NoSpaceConcat("tags=", tagString);
    FixedFieldsNoSpace();
    forall i | 0 <= i < |ws|
      ensures ws[i] != "" && NoSpace(ws[i])
    {
      if i == 0 {
        assert ws[0] == "project=" + project;
      } else if i == 1 {
        assert ws[1] == "organisation=" + org;
      } else if i == 2 {
        assert ws[2] == "date=" + date;
      } else if i == 3 {
        assert ws[3] == "scope=meta";
      } else if i == 4 {
        assert ws[4] == "IGNORE_META";
      } else {
        assert ws[5] == "tags=" + tagString;
      }
    }
  }

  lemma FixedFieldsNoSpace()
    ensures NoSpace("project=") && NoSpace("organisation=") && NoSpace("date=") && NoSpace("tags=")
    ensures NoSpace("scope=meta") && NoSpace("IGNORE_META")
  {
  }

  /** A header of newline-free values is one line. */
  lemma HeaderSingle(project: string, org: string, date: string, tagString: string)
    requires '\n' !in project && '\n' !in org && '\n' !in date && '\n' !in tagString
    ensures '\n' !in HeaderText(project, org, date, tagString)
  {
    var ws := HeaderTokens(project, org, date, tagString);
    forall i | 0 <= i < |ws|
      ensures '\n' !in ws[i]
    {
      if i == 5 {
        assert ws[5] == "tags=" + tagString;
      }
    }
    JoinAbsent(ws, " ", '\n');
  }

  lemma PrefixSingle(prefix: string, s: string)
    requires '\n' !in prefix && '\n' !in s
    ensures '\n' !in prefix + s
  {
  }

  /** The layout of newline-free values has no line with a newline of its own. */
  lemma LayoutSingle(begin: string, entry: string, mission: string, outcome: string)
    requires '\n' !in begin && '\n' !in entry && '\n' !in mission && '\n' !in outcome
    ensures forall i :: 0 <= i < 10 ==> '\n' !in Layout(begin, entry, mission, outcome)[i]
  {
  }

  /** Printing newline-free lines, each followed by a newline, gives text whose lines are the printed lines. */
  lemma PrintedLines(ls: seq<string>)
    requires |ls| >= 1 && forall i :: 0 <= i < |ls| ==> '\n' !in ls[i]
    ensures Split(Join(ls, "\n") + "\n", '\n') == ls + [""]
    ensures SplitLines(Join(ls, "\n") + "\n") == ls
  {
    SplitJoin(ls, '\n');
    var j := Join(ls, "\n");
    SplitAppend(j, '\n', "");
    assert j + "\n" == j + ['\n'] + "";
    assert Split("", '\n') == [""];
    assert (ls + [""])[..|ls|] == ls;
  }

  /** With single-line values, the output is exactly the ten lines of the layout, each ended by a newline. */
  lemma RenderLines(a: Args, order: seq<string>)
    requires Enumerates(order, TagSet(a.tags))
    requires '\n' !in a.entry && '\n' !in a.mission && '\n' !in a.outcome && '\n' !in a.date
    requires '\n' !in TagString(a.tags, order)
    ensures Split(Render(a, order), '\n') == BlockLines(a, TagString(a.tags, order)) + [""]
    ensures SplitLines(Render(a, order)) == BlockLines(a, TagString(a.tags, order))
  {
    var ts := TagString(a.tags, order);
    NormNoSpace(a.project);
    NormNoSpace(a.org);
    var header := HeaderText(Norm(a.project), Norm(a.org), a.date, ts);
    HeaderSingle(Norm(a.project), Norm(a.org), a.date, ts);
    PrefixSingle("LLMLOG/1.0 BEGIN ", header);
    StripKeepsAbsent(a.entry, '\n');
    StripKeepsAbsent(a.mission, '\n');
    StripKeepsAbsent(a.outcome, '\n');
    LayoutSingle(BeginLine(a, ts), Strip(a.entry), Strip(a.mission), Strip(a.outcome));
    PrintedLines(BlockLines(a, ts));
  }
}
