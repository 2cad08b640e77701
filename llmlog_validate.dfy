/**
 * tools/llmlog_validate.py: the fence and key check on one LLMLOG file. The
 * text is split into lines at '\n'; every BEGIN line contributes what follows
 * `BEGIN ` (the `findall` group), every END line counts once, and the file
 * passes when there is at least one BEGIN, as many ENDs as BEGINs (order and
 * pairing are not looked at), and every BEGIN remainder names the required
 * keys as plain substrings.
 */
module LlmlogValidate {
  import opened Text
  import opened Wrappers
  import opened Markers

  /** `re.findall(r'^LLMLOG/\d+\.\d+ BEGIN (.*)$', t, re.M)`: the group of each BEGIN line, in order. */
  function BeginRests(lines: seq<string>): (r: seq<string>)
    ensures |r| <= |lines|
  {
    if lines == [] then []
    else (match BeginRest(lines[0]) case Some(x) => [x] case None => []) + BeginRests(lines[1..])
  }

  /** `len(re.findall(r'^LLMLOG/\d+\.\d+ END\s*$', t, re.M))`. */
  function EndCount(lines: seq<string>): (n: nat)
    ensures n <= |lines|
  {
    if lines == [] then 0
    else (if IsEndLine(lines[0]) then 1 else 0) + EndCount(lines[1..])
  }

  /** One term of `keys_ok`: the three required keys, as substrings of the BEGIN remainder. */
  predicate HasKeys(x: string) {
    Contains(x, "project=") && Contains(x, "date=") &&
    (Contains(x, "organisation=") || Contains(x, "organization="))
  }

  /** The pass condition on the file's text. */
  predicate Passes(text: string) {
    var lines := Split(text, '\n');
    var begins := BeginRests(lines);
    |begins| > 0 && |begins| == EndCount(lines) && forall i :: 0 <= i < |begins| ==> HasKeys(begins[i])
  }

  /**
   * The exit status for command line `argv` (the script name included) when
   * the named file holds `text`: 2 for a wrong argument count, 0 on a pass,
   * 1 on a failure.
   */
  function ExitCode(argv: seq<string>, text: string): (code: int)
    ensures code == 0 || code == 1 || code == 2
    ensures code == 2 <==> |argv| != 2
    ensures code == 0 <==> |argv| == 2 && Passes(text)
  {
    if |argv| != 2 then 2
    else if Passes(text) then 0
    else 1
  }

  // ----- counting over lines ----------------------------------------------

  lemma {:induction false} BeginRestsAppend(a: seq<string>, b: seq<string>)
    ensures BeginRests(a + b) == BeginRests(a) + BeginRests(b)
  {
    if a != [] {
      var h := (match BeginRest(a[0]) case Some(x) => [x] case None => []);
      assert (a + b)[0] == a[0];
      assert (a + b)[1..] == a[1..] + b;
      assert BeginRests(a + b) == h + BeginRests(a[1..] + b);
      assert BeginRests(a) == h + BeginRests(a[1..]);
      BeginRestsAppend(a[1..], b);
      assert h + (BeginRests(a[1..]) + BeginRests(b)) == (h + BeginRests(a[1..])) + BeginRests(b);
    } else {
      assert a + b == b;
    }
  }

  lemma {:induction false} EndCountAppend(a: seq<string>, b: seq<string>)
    ensures EndCount(a + b) == EndCount(a) + EndCount(b)
  {
    if a != [] {
      var c := (if IsEndLine(a[0]) then 1 else 0);
      assert (a + b)[0] == a[0];
      assert (a + b)[1..] == a[1..] + b;
      assert EndCount(a + b) == c + EndCount(a[1..] + b);
      assert EndCount(a) == c + EndCount(a[1..]);
      EndCountAppend(a[1..], b);
    } else {
      assert a + b == b;
    }
  }

  /** The count of BEGIN groups and of END lines of a text made of two parts joined by a newline. */
  lemma LinesAppend(a: string, b: string)
    ensures BeginRests(Split(a + "\n" + b, '\n')) == BeginRests(Split(a, '\n')) + BeginRests(Split(b, '\n'))
    ensures EndCount(Split(a + "\n" + b, '\n')) == EndCount(Split(a, '\n')) + EndCount(Split(b, '\n'))
  {
    SplitAppend(a, '\n', b);
    BeginRestsAppend(Split(a, '\n'), Split(b, '\n'));
    EndCountAppend(Split(a, '\n'), Split(b, '\n'));
  }

  /**
   * Pairing and order are not checked: two parts of a file can be swapped
   * without changing the verdict, so an END that comes before its BEGIN still
   * counts.
   */
  lemma OrderIgnored(a: string, b: string)
    ensures Passes(a + "\n" + b) <==> Passes(b + "\n" + a)
  {
    LinesAppend(a, b);
    LinesAppend(b, a);
    var ba := BeginRests(Split(a, '\n'));
    var bb := BeginRests(Split(b, '\n'));
    forall x | x in ba + bb
      ensures x in bb + ba
    {
    }
    forall x | x in bb + ba
      ensures x in ba + bb
    {
    }
    AllKeysIn(ba + bb, bb + ba);
    AllKeysIn(bb + ba, ba + bb);
  }

  lemma AllKeysIn(xs: seq<string>, ys: seq<string>)
    requires forall x :: x in ys ==> x in xs
    ensures (forall i :: 0 <= i < |xs| ==> HasKeys(xs[i])) ==> (forall j :: 0 <= j < |ys| ==> HasKeys(ys[j]))
  {
    if forall i :: 0 <= i < |xs| ==> HasKeys(xs[i]) {
      forall j | 0 <= j < |ys|
        ensures HasKeys(ys[j])
      {
        assert ys[j] in xs;
      }
    }
  }

  /** Lines none of which is a BEGIN line yield no BEGIN group. */
  lemma {:induction false} NoBeginRests(lines: seq<string>)
    requires forall i :: 0 <= i < |lines| ==> BeginRest(lines[i]).None?
    ensures BeginRests(lines) == []
  {
    if lines != [] {
      assert BeginRest(lines[0]).None?;
      forall i | 0 <= i < |lines[1..]|
        ensures BeginRest(lines[1..][i]).None?
      {
        assert lines[1..][i] == lines[i + 1];
      }
      NoBeginRests(lines[1..]);
    }
  }

  /** A file without any BEGIN line fails, even when it has no END line either. */
  lemma NoBeginFails(argv: seq<string>, text: string)
    requires |argv| == 2
    requires forall i :: 0 <= i < |Split(text, '\n')| ==> BeginRest(Split(text, '\n')[i]).None?
    ensures ExitCode(argv, text) == 1
  {
    NoBeginRests(Split(text, '\n'));
  }

  // ----- the key test -----------------------------------------------------

  /** The key test is a substring test: `subproject=` satisfies `project=`, and `organization=` stands in for `organisation=`. */
  lemma KeysAreSubstrings(pre: string, p: string, d: string, o: string)
    ensures HasKeys(pre + "project=" + p + " date=" + d + " organization=" + o)
  {
    assert " date=" == " " + "date=";
    assert " organization=" == " " + "organization=";
    KeysIn(pre, p, d, o, "project=", "date=", "organization=");
  }

  /** Three keys laid out as `<pre><k1><p> <k2><d> <k3><o>` all occur in the text. */
  lemma KeysIn(pre: string, p: string, d: string, o: string, k1: string, k2: string, k3: string)
    ensures var x := pre + k1 + p + (" " + k2) + d + (" " + k3) + o;
      Contains(x, k1) && Contains(x, k2) && Contains(x, k3)
  {
    var x := pre + k1 + p + (" " + k2) + d + (" " + k3) + o;
    assert x == pre + k1 + (p + (" " + k2) + d + (" " + k3) + o);
    ContainsMiddle(pre, k1, p + (" " + k2) + d + (" " + k3) + o);
    assert x == (pre + k1 + p + " ") + k2 + (d + (" " + k3) + o);
    ContainsMiddle(pre + k1 + p + " ", k2, d + (" " + k3) + o);
    assert x == (pre + k1 + p + (" " + k2) + d + " ") + k3 + o;
    ContainsMiddle(pre + k1 + p + (" " + k2) + d + " ", k3, o);
  }

  /**
   * `starship=` does not stand in for `organisation=`: a remainder naming only
   * it fails the key test, whatever the values hold, so long as they do not
   * themselves spell out one of the two organisation keys.
   */
  lemma StarshipIsNotOrganisation(p: string, d: string, o: string)
    requires !Contains(p, "organisation=") && !Contains(d, "organisation=") && !Contains(o, "organisation=")
    requires !Contains(p, "organization=") && !Contains(d, "organization=") && !Contains(o, "organization=")
    ensures !HasKeys("project=" + p + " date=" + d + " starship=" + o)
  {
    OrgKeyShape("organisation=");
    OrgKeyShape("organization=");
    NotInFields(p, d, o, "organisation=");
    NotInFields(p, d, o, "organization=");
  }

  /** Both spellings of the organisation key hold no whitespace and their only '=' is the last character. */
  lemma OrgKeyShape(sub: string)
    requires sub == "organisation=" || sub == "organization="
    ensures |sub| == 13 && NoSpace(sub) && forall j :: 0 <= j < |sub| - 1 ==> sub[j] != '='
  {
  }

  /**
   * A key `sub` with no whitespace, whose only '=' ends it, and longer than
   * each fixed piece, occurs in `project=<p> date=<d> starship=<o>` only inside
   * one of the three values.
   */
  lemma NotInFields(p: string, d: string, o: string, sub: string)
    requires |sub| > 9 && NoSpace(sub) && forall j :: 0 <= j < |sub| - 1 ==> sub[j] != '='
    requires !Contains(p, sub) && !Contains(d, sub) && !Contains(o, sub)
    ensures !Contains("project=" + p + " date=" + d + " starship=" + o, sub)
  {
    var a, b, c := "project=" + p, "date=" + d, "starship=" + o;
    assert "project=" + p + " date=" + d + " starship=" + o == a + " " + b + " " + c;
    OnlyInValue("project=", p, sub);
    OnlyInValue("date=", d, sub);
    OnlyInValue("starship=", o, sub);
    AcrossSpace(a, b, sub);
    AcrossSpace(a + " " + b, c, sub);
  }

  /** A substring without whitespace that occurs in `a + " " + b` occurs in `a` or in `b`. */
  lemma AcrossSpace(a: string, b: string, sub: string)
    requires NoSpace(sub)
    ensures Contains(a + " " + b, sub) ==> Contains(a, sub) || Contains(b, sub)
  {
    var x := a + " " + b;
    forall i | 0 <= i <= |a| < i + |sub| && i <= |x| - |sub|
      ensures !OccursAt(x, sub, i)
    {
      assert x[i..i + |sub|][|a| - i] == x[|a|] == ' ';
    }
    forall i | 0 <= i && i + |sub| <= |a| && OccursAt(x, sub, i)
      ensures OccursAt(a, sub, i)
    {
      assert x[i..i + |sub|] == a[i..i + |sub|];
    }
    forall i | |a| < i <= |x| - |sub| && OccursAt(x, sub, i)
      ensures OccursAt(b, sub, i - |a| - 1)
    {
      assert x[i..i + |sub|] == b[i - |a| - 1..i - |a| - 1 + |sub|];
    }
  }

  /**
   * In `k + v`, where `k` ends with '=' and is shorter than `sub`, and `sub`
   * holds '=' only as its last character, `sub` occurs only inside `v`.
   */
  lemma OnlyInValue(k: string, v: string, sub: string)
    requires 0 < |k| < |sub| && k[|k| - 1] == '='
    requires forall j :: 0 <= j < |sub| - 1 ==> sub[j] != '='
    ensures Contains(k + v, sub) ==> Contains(v, sub)
  {
    var x := k + v;
    forall i | 0 <= i < |k| && i <= |x| - |sub|
      ensures !OccursAt(x, sub, i)
    {
      assert x[i..i + |sub|][|k| - 1 - i] == x[|k| - 1] == '=';
    }
    forall i | |k| <= i <= |x| - |sub| && OccursAt(x, sub, i)
      ensures OccursAt(v, sub, i - |k|)
    {
      assert x[i..i + |sub|] == v[i - |k|..i - |k| + |sub|];
    }
  }
}
