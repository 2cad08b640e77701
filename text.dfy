/**
 * The few Python `str` operations the LLMLOG tools rely on, restricted to
 * ASCII: `strip`, `rstrip`, `strip(chars)`, `lower`, `split(sep)`, `split()`,
 * `join`, `splitlines` (at '\n' only), `in` (substring) and `startswith`.
 */
module Text {

  /** Python's `str.isspace` on ASCII: space, \t, \n, \v, \f, \r and the separators \x1c-\x1f. */
  const Whitespace: set<char> :=
    {' ', '\t', '\n', '\U{0B}', '\U{0C}', '\r', '\U{1C}', '\U{1D}', '\U{1E}', '\U{1F}'}

  predicate IsSpace(c: char) {
    c in Whitespace
  }

  predicate IsDigit(c: char) { '0' <= c <= '9' }

  predicate IsLetter(c: char) { ('A' <= c <= 'Z') || ('a' <= c <= 'z') }

  /** The ASCII part of regex `\w`: letters, digits and '_'. */
  predicate IsWordChar(c: char) { IsLetter(c) || IsDigit(c) || c == '_' }

  predicate AllSpace(s: string) { forall i :: 0 <= i < |s| ==> IsSpace(s[i]) }

  predicate NoSpace(s: string) { forall i :: 0 <= i < |s| ==> !IsSpace(s[i]) }

  /** `str.lower` on one ASCII character. */
  function Lower(c: char): (r: char)
    ensures IsSpace(r) <==> IsSpace(c)
    ensures r == ',' <==> c == ','
    ensures !('A' <= r <= 'Z')
  {
    if 'A' <= c <= 'Z' then (c as int + 32) as char else c
  }

  /** `str.lower`. */
  function LowerStr(s: string): (r: string)
    ensures |r| == |s|
    ensures forall i :: 0 <= i < |s| ==> r[i] == Lower(s[i])
  {
    seq(|s|, i requires 0 <= i < |s| => Lower(s[i]))
  }

  lemma LowerStrIdempotent(s: string)
    ensures LowerStr(LowerStr(s)) == LowerStr(s)
  {
  }

  /** Drops the longest prefix made of characters in `cs`. */
  function TrimLeft(s: string, cs: set<char>): (r: string)
    ensures |r| <= |s| && r == s[|s| - |r|..]
    ensures r == [] || r[0] !in cs
    ensures forall i :: 0 <= i < |s| - |r| ==> s[i] in cs
  {
    if s != [] && s[0] in cs then TrimLeft(s[1..], cs) else s
  }

  /** Drops the longest suffix made of characters in `cs`. */
  function TrimRight(s: string, cs: set<char>): (r: string)
    ensures |r| <= |s| && r == s[..|r|]
    ensures r == [] || r[|r| - 1] !in cs
    ensures forall i :: |r| <= i < |s| ==> s[i] in cs
  {
    if s != [] && s[|s| - 1] in cs then TrimRight(s[..|s| - 1], cs) else s
  }

  lemma TrimLeftNoop(s: string, cs: set<char>)
    requires s == [] || s[0] !in cs
    ensures TrimLeft(s, cs) == s
  {
  }

  lemma TrimRightNoop(s: string, cs: set<char>)
    requires s == [] || s[|s| - 1] !in cs
    ensures TrimRight(s, cs) == s
  {
  }

  /** A last character in `cs` goes, and trimming goes on with the rest. */
  lemma TrimRightDrop(s: string, cs: set<char>)
    requires s != [] && s[|s| - 1] in cs
    ensures TrimRight(s, cs) == TrimRight(s[..|s| - 1], cs)
  {
  }

  /** `str.strip()`. */
  function Strip(s: string): (r: string) {
    TrimRight(TrimLeft(s, Whitespace), Whitespace)
  }

  /** `str.rstrip()`. */
  function RStrip(s: string): string {
    TrimRight(s, Whitespace)
  }

  /** `str.strip(chars)`. */
  function StripChars(s: string, chars: set<char>): string {
    TrimRight(TrimLeft(s, chars), chars)
  }

  /** Where the text kept by `Strip` starts. */
  function StripStart(s: string): nat {
    |s| - |TrimLeft(s, Whitespace)|
  }

  /** What `Strip` leaves is a contiguous piece of its input with no space at either end. */
  lemma StripShape(s: string)
    ensures StripStart(s) + |Strip(s)| <= |s|
    ensures Strip(s) == s[StripStart(s)..StripStart(s) + |Strip(s)|]
    ensures Strip(s) == [] || (!IsSpace(Strip(s)[0]) && !IsSpace(Strip(s)[|Strip(s)| - 1]))
    ensures AllSpace(s) <==> Strip(s) == []
  {
    StripSlice(s);
    StripEdges(s);
    StripEmpty(s);
  }

  lemma StripSlice(s: string)
    ensures StripStart(s) + |Strip(s)| <= |s|
    ensures Strip(s) == s[StripStart(s)..StripStart(s) + |Strip(s)|]
  {
    var t := TrimLeft(s, Whitespace);
    var r := TrimRight(t, Whitespace);
    var i := |s| - |t|;
    assert r == s[i..i + |r|];
  }

  lemma StripEdges(s: string)
    ensures Strip(s) == [] || (!IsSpace(Strip(s)[0]) && !IsSpace(Strip(s)[|Strip(s)| - 1]))
  {
    var t := TrimLeft(s, Whitespace);
    var r := TrimRight(t, Whitespace);
    if r != [] {
      assert r[0] == t[0];
    }
  }

  lemma StripEmpty(s: string)
    ensures AllSpace(s) <==> Strip(s) == []
  {
    TrimLeftHead(s, Whitespace);
  }

  /** The first character `TrimLeft` keeps is the input's character at that place. */
  lemma TrimLeftHead(s: string, cs: set<char>)
    ensures var t := TrimLeft(s, cs); t != [] ==> t[0] == s[|s| - |t|]
  {
  }

  lemma StripNoop(s: string)
    requires s == [] || (!IsSpace(s[0]) && !IsSpace(s[|s| - 1]))
    ensures Strip(s) == s
  {
  }

  lemma StripIdempotent(s: string)
    ensures Strip(Strip(s)) == Strip(s)
  {
    StripShape(s);
    StripNoop(Strip(s));
  }

  /** A character absent from `s` is absent from `Strip(s)`. */
  lemma StripKeepsAbsent(s: string, c: char)
    requires c !in s
    ensures c !in Strip(s)
  {
    StripShape(s);
  }

  /** Stripping and then lowering gives a string that stripping and lowering leave alone. */
  lemma StripLowerFixed(s: string)
    ensures var t := LowerStr(Strip(s)); Strip(t) == t && LowerStr(t) == t
  {
    StripShape(s);
    LowerFixed(Strip(s));
  }

  /** Lowering a string with no space at either end gives one that stripping and lowering leave alone. */
  lemma LowerFixed(u: string)
    requires u == [] || (!IsSpace(u[0]) && !IsSpace(u[|u| - 1]))
    ensures Strip(LowerStr(u)) == LowerStr(u) && LowerStr(LowerStr(u)) == LowerStr(u)
  {
    var t := LowerStr(u);
    if t != [] {
      assert t[0] == Lower(u[0]) && t[|t| - 1] == Lower(u[|u| - 1]);
    }
    StripNoop(t);
    LowerStrIdempotent(u);
  }

  /** Index of the first `c` in `s`, or `|s|` when there is none. */
  function IndexOf(s: string, c: char): (r: nat)
    ensures r <= |s|
    ensures c !in s[..r]
    ensures r < |s| ==> s[r] == c
  {
    if s == [] then 0 else if s[0] == c then 0 else 1 + IndexOf(s[1..], c)
  }

  /** The first `c` of `a + [c] + b`, when `a` has none, is the one after `a`. */
  lemma {:induction false} IndexOfSplit(a: string, c: char, b: string)
    requires c !in a
    ensures IndexOf(a + [c] + b, c) == |a|
  {
    if a != [] {
      assert (a + [c] + b)[1..] == a[1..] + [c] + b;
      assert c !in a[1..] by {
        forall j | 0 <= j < |a[1..]|
          ensures a[1..][j] != c
        {
          assert a[1..][j] == a[j + 1];
        }
      }
      IndexOfSplit(a[1..], c, b);
    }
  }

  /** A whitespace character does not occur in a string without whitespace. */
  lemma NoSpaceAbsent(s: string, c: char)
    requires NoSpace(s) && IsSpace(c)
    ensures c !in s
  {
    forall j | 0 <= j < |s|
      ensures s[j] != c
    {
      assert !IsSpace(s[j]);
    }
  }

  /** Stripping a string without whitespace changes nothing. */
  lemma StripNoSpace(s: string)
    requires NoSpace(s)
    ensures Strip(s) == s
  {
    if s != [] {
      assert !IsSpace(s[0]) && !IsSpace(s[|s| - 1]);
    }
    StripNoop(s);
  }

  /** `sep.join(parts)`. */
  function Join(parts: seq<string>, sep: string): string {
    if |parts| == 0 then ""
    else if |parts| == 1 then parts[0]
    else parts[0] + sep + Join(parts[1..], sep)
  }

  /** `s.split(c)` for a one-character separator: never empty, and no piece holds the separator. */
  function Split(s: string, c: char): (r: seq<string>)
    ensures |r| >= 1
    ensures forall i :: 0 <= i < |r| ==> c !in r[i]
  {
    if s == [] then [""]
    else
      var r := Split(s[1..], c);
      if s[0] == c then [""] + r else [[s[0]] + r[0]] + r[1..]
  }

  /** Joining the pieces of a split with the separator gives the string back. */
  lemma {:induction false} JoinSplit(s: string, c: char)
    ensures Join(Split(s, c), [c]) == s
  {
    if s != [] {
      JoinSplit(s[1..], c);
      var r := Split(s[1..], c);
      if s[0] == c {
        assert s == [c] + s[1..];
      } else if |r| > 1 {
        assert Join(r, [c]) == r[0] + [c] + Join(r[1..], [c]);
        assert Split(s, c)[1..] == r[1..];
      }
    }
  }

  /** Splitting `a + c + b` splits `a` and `b` separately. */
  lemma {:induction false} SplitAppend(a: string, c: char, b: string)
    ensures Split(a + [c] + b, c) == Split(a, c) + Split(b, c)
  {
    if a == [] {
      assert a + [c] + b == [c] + b;
      SplitCons(c, b, c);
    } else {
      var t := a[1..] + [c] + b;
      assert a + [c] + b == [a[0]] + t;
      assert a == [a[0]] + a[1..];
      SplitAppend(a[1..], c, b);
      SplitCons(a[0], t, c);
      SplitCons(a[0], a[1..], c);
      PiecesCons(a[0] == c, [a[0]], Split(a[1..], c), Split(b, c));
    }
  }

  /** One step of `Split`: the first character either ends the first piece or joins it. */
  lemma SplitCons(x: char, t: string, c: char)
    ensures Split([x] + t, c) ==
      if x == c then [""] + Split(t, c) else [[x] + Split(t, c)[0]] + Split(t, c)[1..]
  {
    assert ([x] + t)[1..] == t;
  }

  /** Prepending to the first piece commutes with appending further pieces. */
  lemma PiecesCons(sep: bool, x: string, p: seq<string>, q: seq<string>)
    requires |p| >= 1
    ensures (if sep then [""] + (p + q) else [x + (p + q)[0]] + (p + q)[1..]) ==
      (if sep then [""] + p else [x + p[0]] + p[1..]) + q
  {
    if !sep {
      assert (p + q)[1..] == p[1..] + q;
    }
  }

  /** A string without the separator is one piece. */
  lemma {:induction false} SplitSingle(s: string, c: char)
    requires c !in s
    ensures Split(s, c) == [s]
  {
    if s != [] {
      SplitSingle(s[1..], c);
      assert s == [s[0]] + s[1..];
    }
  }

  /** Splitting a join at a separator that no part contains gives the parts back. */
  lemma {:induction false} SplitJoin(parts: seq<string>, c: char)
    requires |parts| >= 1
    requires forall i :: 0 <= i < |parts| ==> c !in parts[i]
    ensures Split(Join(parts, [c]), c) == parts
  {
    SplitSingle(parts[0], c);
    if |parts| > 1 {
      SplitAppend(parts[0], c, Join(parts[1..], [c]));
      SplitJoin(parts[1..], c);
    }
  }

  function SpaceRun(s: string): (n: nat)
    ensures n <= |s|
    ensures forall i :: 0 <= i < n ==> IsSpace(s[i])
    ensures n < |s| ==> !IsSpace(s[n])
  {
    if s != [] && IsSpace(s[0]) then 1 + SpaceRun(s[1..]) else 0
  }

  function NonSpaceRun(s: string): (n: nat)
    ensures n <= |s|
    ensures forall i :: 0 <= i < n ==> !IsSpace(s[i])
    ensures n < |s| ==> IsSpace(s[n])
  {
    if s != [] && !IsSpace(s[0]) then 1 + NonSpaceRun(s[1..]) else 0
  }

  /** `s.split()`: the maximal runs of non-space characters, in order. */
  function Words(s: string): (r: seq<string>)
    ensures forall i :: 0 <= i < |r| ==> r[i] != "" && NoSpace(r[i])
    decreases |s|
  {
    var t := s[SpaceRun(s)..];
    if t == [] then []
    else
      var n := NonSpaceRun(t);
      [t[..n]] + Words(t[n..])
  }

  /** `s.splitlines()`, with '\n' as the only line boundary: no trailing empty line. */
  function SplitLines(s: string): (r: seq<string>)
    ensures forall i :: 0 <= i < |r| ==> '\n' !in r[i]
  {
    if s == [] then []
    else
      var parts := Split(s, '\n');
      if parts[|parts| - 1] == "" then parts[..|parts| - 1] else parts
  }

  predicate StartsWith(s: string, prefix: string) {
    |prefix| <= |s| && s[..|prefix|] == prefix
  }

  /** Python's `sub in s`. */
  predicate Contains(s: string, sub: string) {
    exists i :: 0 <= i <= |s| - |sub| && OccursAt(s, sub, i)
  }

  predicate OccursAt(s: string, sub: string, i: int) {
    0 <= i <= |s| - |sub| && s[i..i + |sub|] == sub
  }

  lemma ContainsMiddle(a: string, sub: string, b: string)
    ensures Contains(a + sub + b, sub)
  {
    var s := a + sub + b;
    assert OccursAt(s, sub, |a|);
  }

  /** A word, a space, then the rest: the word comes first. */
  lemma WordsCons(w: string, rest: string)
    requires w != "" && NoSpace(w)
    ensures Words(w + " " + rest) == [w] + Words(rest)
  {
    var s := w + " " + rest;
    assert SpaceRun(s) == 0;
    assert s[0..] == s;
    NonSpaceRunAt(w, " " + rest);
    assert s == w + (" " + rest);
    assert s[|w|..] == " " + rest;
    assert s[..|w|] == w;
    WordsLead(rest);
  }

  /** A leading space does not change the words. */
  lemma WordsLead(rest: string)
    ensures Words(" " + rest) == Words(rest)
  {
    var s := " " + rest;
    assert s[1..] == rest;
    assert SpaceRun(s) == 1 + SpaceRun(rest);
    assert s[SpaceRun(s)..] == rest[SpaceRun(rest)..];
  }

  /** The run of non-space characters at the start of `w + rest` is `w` when `rest` starts with a space. */
  lemma {:induction false} NonSpaceRunAt(w: string, rest: string)
    requires NoSpace(w) && rest != [] && IsSpace(rest[0])
    ensures NonSpaceRun(w + rest) == |w|
  {
    if w != [] {
      assert (w + rest)[1..] == w[1..] + rest;
      NonSpaceRunAt(w[1..], rest);
    } else {
      assert w + rest == rest;
    }
  }

  /** `split()` of a single run of non-space characters is that run. */
  lemma WordsSingle(t: string)
    requires t != "" && NoSpace(t)
    ensures Words(t) == [t]
  {
    assert SpaceRun(t) == 0;
    assert NonSpaceRun(t) == |t|;
    assert t[0..] == t && t[..|t|] == t;
  }

  lemma {:induction false} JoinSnoc(parts: seq<string>, x: string, sep: string)
    requires |parts| > 0
    ensures Join(parts + [x], sep) == Join(parts, sep) + sep + x
  {
    if |parts| > 1 {
      assert (parts + [x])[1..] == parts[1..] + [x];
      JoinSnoc(parts[1..], x, sep);
    }
  }

  /** The first character of a join of parts whose first part is non-empty. */
  lemma JoinHead(parts: seq<string>, sep: string)
    requires |parts| > 0 && parts[0] != ""
    ensures Join(parts, sep) != "" && Join(parts, sep)[0] == parts[0][0]
  {
  }

  /** The last character of a join of parts whose last part is non-empty. */
  lemma {:induction false} JoinLast(parts: seq<string>, sep: string)
    requires |parts| > 0 && parts[|parts| - 1] != ""
    ensures var j := Join(parts, sep); j != "" && j[|j| - 1] == parts[|parts| - 1][|parts[|parts| - 1]| - 1]
  {
    if |parts| > 1 {
      JoinLast(parts[1..], sep);
    }
  }

  /** A character absent from the text is absent from every piece of its split. */
  lemma {:induction false} SplitPieceAbsent(s: string, sep: char, c: char, k: nat)
    requires c !in s && k < |Split(s, sep)|
    ensures c !in Split(s, sep)[k]
  {
    if s != [] {
      var r := Split(s[1..], sep);
      assert c !in s[1..] by {
        forall j | 0 <= j < |s[1..]|
          ensures s[1..][j] != c
        {
          assert s[1..][j] == s[j + 1];
        }
      }
      if s[0] == sep {
        if k > 0 {
          SplitPieceAbsent(s[1..], sep, c, k - 1);
        }
      } else {
        if k == 0 {
          SplitPieceAbsent(s[1..], sep, c, 0);
          assert s[0] != c;
        } else {
          SplitPieceAbsent(s[1..], sep, c, k);
        }
      }
    }
  }

  /** A character in neither the parts nor the separator is absent from the join. */
  lemma {:induction false} JoinAbsent(parts: seq<string>, sep: string, c: char)
    requires c !in sep && forall i :: 0 <= i < |parts| ==> c !in parts[i]
    ensures c !in Join(parts, sep)
  {
    if |parts| > 1 {
      JoinAbsent(parts[1..], sep, c);
    }
  }

  /** `split()` of tokens joined by single spaces gives the tokens back. */
  lemma {:induction false} WordsJoin(ws: seq<string>)
    requires |ws| >= 1
    requires forall i :: 0 <= i < |ws| ==> ws[i] != "" && NoSpace(ws[i])
    ensures Words(Join(ws, " ")) == ws
  {
    if |ws| == 1 {
      WordsSingle(ws[0]);
    } else {
      WordsJoin(ws[1..]);
      WordsCons(ws[0], Join(ws[1..], " "));
    }
  }

  lemma NoSpaceConcat(a: string, b: string)
    ensures NoSpace(a + b) <==> NoSpace(a) && NoSpace(b)
  {
    if NoSpace(a) && NoSpace(b) {
      forall i | 0 <= i < |a + b|
        ensures !IsSpace((a + b)[i])
      {
        if i >= |a| {
          assert (a + b)[i] == b[i - |a|];
        }
      }
    }
    if NoSpace(a + b) {
      forall i | 0 <= i < |a|
        ensures !IsSpace(a[i])
      {
        assert (a + b)[i] == a[i];
      }
      forall i | 0 <= i < |b|
        ensures !IsSpace(b[i])
      {
        assert (a + b)[|a| + i] == b[i];
      }
    }
  }

  /** A text that starts with `sub` contains it, whatever follows. */
  lemma ContainsPrefix(s: string, rest: string, sub: string)
    requires StartsWith(s, sub)
    ensures Contains(s + rest, sub)
  {
    assert (s + rest)[..|sub|] == s[..|sub|];
    assert OccursAt(s + rest, sub, 0);
  }

  /** An occurrence stays one when text is put in front. */
  lemma ContainsShift(pre: string, s: string, sub: string)
    requires Contains(s, sub)
    ensures Contains(pre + s, sub)
  {
    var i :| 0 <= i <= |s| - |sub| && OccursAt(s, sub, i);
    assert (pre + s)[|pre| + i..|pre| + i + |sub|] == s[i..i + |sub|];
    assert OccursAt(pre + s, sub, |pre| + i);
  }

  /** A join contains whatever one of its parts starts with. */
  lemma {:induction false} JoinContains(parts: seq<string>, sep: string, i: nat, sub: string)
    requires i < |parts| && StartsWith(parts[i], sub)
    ensures Contains(Join(parts, sep), sub)
  {
    if |parts| == 1 {
      assert parts[0] + "" == parts[0];
      ContainsPrefix(parts[0], "", sub);
    } else if i == 0 {
      assert Join(parts, sep) == parts[0] + (sep + Join(parts[1..], sep));
      ContainsPrefix(parts[0], sep + Join(parts[1..], sep), sub);
    } else {
      JoinContains(parts[1..], sep, i - 1, sub);
      assert Join(parts, sep) == (parts[0] + sep) + Join(parts[1..], sep);
      ContainsShift(parts[0] + sep, Join(parts[1..], sep), sub);
    }
  }
}
