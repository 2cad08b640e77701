/**
 * The marker-line grammar shared by tools/llmlog_parse.py and
 * tools/llmlog_validate.py, one line at a time (lines are split at '\n', which
 * is where `^` and `$` of a multi-line regex anchor):
 *   BEGIN  `^LLMLOG/\d+\.\d+ BEGIN (.*)$`
 *   END    `^LLMLOG/\d+\.\d+ END\s*$`
 */
module Markers {
  import opened Wrappers
  import opened Text

  /** End of the run of digits that starts at `i`. */
  function DigitRun(s: string, i: nat): (j: nat)
    requires i <= |s|
    ensures i <= j <= |s|
    ensures forall k :: i <= k < j ==> IsDigit(s[k])
    ensures j < |s| ==> !IsDigit(s[j])
    decreases |s| - i
  {
    if i < |s| && IsDigit(s[i]) then DigitRun(s, i + 1) else i
  }

  /** Where the `LLMLOG/<digits>.<digits>` prefix of a line ends, when the line has one. */
  function VersionEnd(line: string): (r: Option<nat>)
    ensures r.Some? ==> 10 <= r.value <= |line|
  {
    if !StartsWith(line, "LLMLOG/") then None
    else
      var a := DigitRun(line, 7);
      if a == 7 || a == |line| || line[a] != '.' then None
      else
        var b := DigitRun(line, a + 1);
        if b == a + 1 then None else Some(b)
  }

  /** The `<digits>.<digits>` version of a marker line. */
  function Version(line: string): string
    requires VersionEnd(line).Some?
  {
    line[7..VersionEnd(line).value]
  }

  /** What follows `LLMLOG/<ver> BEGIN ` on a BEGIN line (possibly empty), or None for any other line. */
  function BeginRest(line: string): Option<string> {
    match VersionEnd(line)
    case None => None
    case Some(n) => if StartsWith(line[n..], " BEGIN ") then Some(line[n + 7..]) else None
  }

  /** `^LLMLOG/\d+\.\d+ END\s*$`: the marker, then nothing but whitespace. */
  predicate IsEndLine(line: string) {
    match VersionEnd(line)
    case None => false
    case Some(n) => StartsWith(line[n..], " END") && AllSpace(line[n + 4..])
  }

  predicate IsDigits(d: string) {
    d != "" && forall i :: 0 <= i < |d| ==> IsDigit(d[i])
  }

  lemma DigitRunOver(s: string, i: nat, d: string)
    requires IsDigits(d) && i + |d| <= |s| && s[i..i + |d|] == d
    requires i + |d| < |s| ==> !IsDigit(s[i + |d|])
    ensures DigitRun(s, i) == i + |d|
    decreases |s| - i
  {
    if |d| > 1 {
      assert s[i] == d[0] && IsDigit(d[0]);
      assert DigitRun(s, i) == DigitRun(s, i + 1);
      assert s[i + 1..i + |d|] == d[1..];
      assert IsDigits(d[1..]) by {
        forall k | 0 <= k < |d[1..]|
          ensures IsDigit(d[1..][k])
        {
          assert d[1..][k] == d[k + 1];
        }
      }
      DigitRunOver(s, i + 1, d[1..]);
    } else {
      assert s[i] == d[0];
    }
  }

  /** Any `digits.digits` version is accepted, and the prefix ends right after it. */
  lemma VersionEndOf(maj: string, min: string, rest: string)
    requires IsDigits(maj) && IsDigits(min)
    requires rest == [] || !IsDigit(rest[0])
    ensures var line := "LLMLOG/" + maj + "." + min + rest;
      VersionEnd(line) == Some(8 + |maj| + |min|) && Version(line) == maj + "." + min
  {
    var line := "LLMLOG/" + maj + "." + min + rest;
    var n := 8 + |maj| + |min|;
    VersionDigits(maj, min, rest);
    VersionEndIs(line, 7 + |maj|, n);
    assert line[7..n] == maj + "." + min;
  }

  /** The two digit runs of `LLMLOG/<maj>.<min><rest>`. */
  lemma VersionDigits(maj: string, min: string, rest: string)
    requires IsDigits(maj) && IsDigits(min)
    requires rest == [] || !IsDigit(rest[0])
    ensures var line := "LLMLOG/" + maj + "." + min + rest;
      StartsWith(line, "LLMLOG/") && 7 + |maj| < |line| &&
      DigitRun(line, 7) == 7 + |maj| && line[7 + |maj|] == '.' && DigitRun(line, 8 + |maj|) == 8 + |maj| + |min|
  {
    var line := "LLMLOG/" + maj + "." + min + rest;
    assert line[..7] == "LLMLOG/";
    assert line[7..7 + |maj|] == maj;
    DigitRunOver(line, 7, maj);
    assert line[7 + |maj|] == '.';
    assert line[8 + |maj|..8 + |maj| + |min|] == min;
    if rest != [] {
      assert line[8 + |maj| + |min|] == rest[0];
    }
    DigitRunOver(line, 8 + |maj|, min);
  }

  /** A line that starts with `LLMLOG/`, a digit run ending at '.' in `a`, then a digit run ending at `b`. */
  lemma VersionEndIs(line: string, a: nat, b: nat)
    requires StartsWith(line, "LLMLOG/") && 7 < a < |line| && line[a] == '.'
    requires DigitRun(line, 7) == a && a + 1 < b && DigitRun(line, a + 1) == b
    ensures VersionEnd(line) == Some(b)
  {
  }

  /**
   * Marker recognition: with any `digits.digits` version, a BEGIN line needs the
   * space after `BEGIN` and keeps everything after it; an END line allows only
   * trailing whitespace; a line that does not start with `LLMLOG/` (for example,
   * an indented marker) is never a marker.
   */
  lemma MarkerLines(maj: string, min: string, tail: string)
    requires IsDigits(maj) && IsDigits(min)
    ensures BeginRest("LLMLOG/" + maj + "." + min + " BEGIN " + tail) == Some(tail)
    ensures BeginRest("LLMLOG/" + maj + "." + min + " BEGIN") == None
    ensures IsEndLine("LLMLOG/" + maj + "." + min + " END" + tail) <==> AllSpace(tail)
    ensures !StartsWith(tail, "LLMLOG/") ==> BeginRest(tail) == None && !IsEndLine(tail)
  {
    BeginMarker(maj, min, tail);
    BareBegin(maj, min);
    EndMarker(maj, min, tail);
  }

  lemma BeginMarker(maj: string, min: string, tail: string)
    requires IsDigits(maj) && IsDigits(min)
    ensures BeginRest("LLMLOG/" + maj + "." + min + " BEGIN " + tail) == Some(tail)
  {
    var v := "LLMLOG/" + maj + "." + min;
    var n := |v|;
    var l := v + " BEGIN " + tail;
    assert VersionEnd(l) == Some(n) by {
      VersionEndOf(maj, min, " BEGIN " + tail);
      assert l == "LLMLOG/" + maj + "." + min + (" BEGIN " + tail);
    }
    assert l[n..] == " BEGIN " + tail;
    assert l[n + 7..] == tail;
  }

  lemma BareBegin(maj: string, min: string)
    requires IsDigits(maj) && IsDigits(min)
    ensures BeginRest("LLMLOG/" + maj + "." + min + " BEGIN") == None
  {
    var v := "LLMLOG/" + maj + "." + min;
    var n := |v|;
    var l := v + " BEGIN";
    assert VersionEnd(l) == Some(n) by {
      VersionEndOf(maj, min, " BEGIN");
    }
    assert |l[n..]| == 6;
  }

  lemma EndMarker(maj: string, min: string, tail: string)
    requires IsDigits(maj) && IsDigits(min)
    ensures IsEndLine("LLMLOG/" + maj + "." + min + " END" + tail) <==> AllSpace(tail)
  {
    var v := "LLMLOG/" + maj + "." + min;
    var n := |v|;
    var l := v + " END" + tail;
    assert VersionEnd(l) == Some(n) by {
      VersionEndOf(maj, min, " END" + tail);
      assert l == "LLMLOG/" + maj + "." + min + (" END" + tail);
    }
    assert l[n..] == " END" + tail;
    assert l[n + 4..] == tail;
  }

  /** The BEGIN line the generator writes: its group is everything after `LLMLOG/1.0 BEGIN `. */
  lemma BeginLine(tail: string)
    ensures BeginRest("LLMLOG/1.0 BEGIN " + tail) == Some(tail)
    ensures VersionEnd("LLMLOG/1.0 BEGIN " + tail).Some? && Version("LLMLOG/1.0 BEGIN " + tail) == "1.0"
  {
    assert IsDigits("1") && IsDigits("0");
    BeginMarker("1", "0", tail);
    assert "LLMLOG/" + "1" + "." + "0" + " BEGIN " == "LLMLOG/1.0 BEGIN ";
    VersionEndOf("1", "0", " BEGIN " + tail);
    assert "LLMLOG/" + "1" + "." + "0" + (" BEGIN " + tail) == "LLMLOG/1.0 BEGIN " + tail;
  }

  /** An END line is not a BEGIN line. */
  lemma EndIsNotBegin(line: string)
    requires IsEndLine(line)
    ensures BeginRest(line).None?
  {
    var n := VersionEnd(line).value;
    assert line[n..][..4] == " END";
    assert line[n..][1] == 'E';
  }

  /** A BEGIN line is not an END line. */
  lemma BeginIsNotEnd(line: string)
    requires BeginRest(line).Some?
    ensures !IsEndLine(line)
  {
    var n := VersionEnd(line).value;
    assert line[n..][..7] == " BEGIN ";
    assert line[n..][1] == 'B';
  }
}
