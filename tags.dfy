/**
 * The tag rule shared by `_normalise_tags` (tools/llmlog_parse.py) and the
 * inline normalisation of `parse_begin_kvs` (tools/llmlog_parse_chatgpt.py):
 * split on ',', strip each piece, drop empty pieces, lowercase, and keep each
 * tag at its first occurrence only.
 */
module Tags {
  import opened Text

  /** A header value: a plain string, or the normalised list that replaces a `tags` string. */
  datatype Value = Str(s: string) | List(items: seq<string>)

  /** What a normalised tag looks like: non-empty, stripped, lowercase, without ','. */
  predicate IsCleanTag(t: string) {
    t != "" && Strip(t) == t && LowerStr(t) == t && ',' !in t
  }

  predicate NoDup(xs: seq<string>) {
    forall i, j :: 0 <= i < j < |xs| ==> xs[i] != xs[j]
  }

  /** `[t.strip().lower() for t in pieces if t.strip()]`. */
  function Clean(pieces: seq<string>): seq<string> {
    if pieces == [] then []
    else (if Strip(pieces[0]) != "" then [LowerStr(Strip(pieces[0]))] else []) + Clean(pieces[1..])
  }

  /** The list comprehension over `s.split(',')`. */
  function CleanPieces(s: string): seq<string> {
    Clean(Split(s, ','))
  }

  /** The list that the `seen`/`out` loop builds: each element at its first occurrence, in order. */
  function Dedupe(xs: seq<string>): (r: seq<string>)
    ensures forall x :: x in r <==> x in xs
    ensures NoDup(r)
  {
    if xs == [] then []
    else
      var d := Dedupe(xs[..|xs| - 1]);
      var x := xs[|xs| - 1];
      assert xs == xs[..|xs| - 1] + [x];
      if x in d then d else d + [x]
  }

  /** The result `_normalise_tags(s)` returns. */
  function NormalisedTags(s: string): seq<string> {
    Dedupe(CleanPieces(s))
  }

  /** `_normalise_tags`: the comprehension, then one pass with a `seen` set. */
  method NormaliseTags(s: string) returns (out: seq<string>)
    ensures out == NormalisedTags(s)
  {
    var tags := CleanPieces(s);
    out := KeepFirst(tags);
  }

  /** The `seen`/`out` loop: appends each tag not seen before. */
  method KeepFirst(tags: seq<string>) returns (out: seq<string>)
    ensures out == Dedupe(tags)
  {
    var seen: set<string> := {};
    out := [];
    var i := 0;
    while i < |tags|
      invariant 0 <= i <= |tags|
      invariant out == Dedupe(tags[..i])
      invariant forall x :: x in seen <==> x in out
    {
      var t := tags[i];
      assert tags[..i + 1][..i] == tags[..i];
      if t !in seen {
        seen := seen + {t};
        out := out + [t];
      }
      i := i + 1;
    }
    assert tags[..i] == tags;
  }

  lemma {:induction false} CleanShape(pieces: seq<string>)
    requires forall i :: 0 <= i < |pieces| ==> ',' !in pieces[i]
    ensures forall i :: 0 <= i < |Clean(pieces)| ==> IsCleanTag(Clean(pieces)[i])
  {
    if pieces != [] {
      CleanShape(pieces[1..]);
      var p := pieces[0];
      if Strip(p) != "" {
        StripLowerFixed(p);
        StripKeepsAbsent(p, ',');
        assert ',' !in LowerStr(Strip(p));
      }
    }
  }

  /** Piece `p` of the split yields tag `x`. */
  predicate Yields(p: string, x: string) {
    Strip(p) != "" && LowerStr(Strip(p)) == x
  }

  lemma {:induction false} CleanMembers(pieces: seq<string>, x: string)
    ensures x in Clean(pieces) <==> exists i :: 0 <= i < |pieces| && Yields(pieces[i], x)
  {
    if pieces != [] {
      var rest := pieces[1..];
      var h := if Strip(pieces[0]) != "" then [LowerStr(Strip(pieces[0]))] else [];
      CleanMembers(rest, x);
      assert Clean(pieces) == h + Clean(rest);
      assert x in h <==> Yields(pieces[0], x);
      SomeShift(pieces, p => Yields(p, x));
    }
  }

  /** Some element satisfies `f` exactly when the first does or some later one does. */
  lemma SomeShift<T>(xs: seq<T>, f: T -> bool)
    requires xs != []
    ensures (exists i :: 0 <= i < |xs| && f(xs[i])) <==>
      f(xs[0]) || exists i :: 0 <= i < |xs[1..]| && f(xs[1..][i])
  {
    var rest := xs[1..];
    if exists i :: 0 <= i < |xs| && f(xs[i]) {
      var i :| 0 <= i < |xs| && f(xs[i]);
      if i > 0 {
        assert rest[i - 1] == xs[i];
      }
    }
    if exists i :: 0 <= i < |rest| && f(rest[i]) {
      var i :| 0 <= i < |rest| && f(rest[i]);
      assert xs[i + 1] == rest[i];
    }
  }

  lemma {:induction false} CleanFixed(xs: seq<string>)
    requires forall i {:trigger IsCleanTag(xs[i])} :: 0 <= i < |xs| ==> IsCleanTag(xs[i])
    ensures Clean(xs) == xs
  {
    if xs != [] {
      var rest := xs[1..];
      assert Clean(rest) == rest by {
        forall i | 0 <= i < |rest|
          ensures IsCleanTag(rest[i])
        {
          assert rest[i] == xs[i + 1];
          assert IsCleanTag(xs[i + 1]);
        }
        CleanFixed(rest);
      }
      assert IsCleanTag(xs[0]);
      assert Clean(xs) == [xs[0]] + Clean(rest) by {
        assert [xs[0]] + rest == xs;
        CleanCons(xs[0], rest);
      }
    }
  }

  lemma CleanCons(x: string, rest: seq<string>)
    requires IsCleanTag(x)
    ensures Clean([x] + rest) == [x] + Clean(rest)
  {
    assert ([x] + rest)[1..] == rest;
  }

  lemma {:induction false} DedupeFixed(xs: seq<string>)
    requires NoDup(xs)
    ensures Dedupe(xs) == xs
  {
    if xs != [] {
      var p := xs[..|xs| - 1];
      DedupeFixed(p);
      assert xs[|xs| - 1] !in p;
      assert p + [xs[|xs| - 1]] == xs;
    }
  }

  /** Index of the first occurrence of `x` in `xs`. */
  function FirstIndex(xs: seq<string>, x: string): (k: nat)
    requires x in xs
    ensures k < |xs| && xs[k] == x && x !in xs[..k]
  {
    if xs[0] == x then 0
    else
      assert x in xs[1..];
      var k := FirstIndex(xs[1..], x);
      assert xs[..k + 1] == [xs[0]] + xs[1..][..k];
      k + 1
  }

  lemma FirstIndexPrefix(xs: seq<string>, n: nat, x: string)
    requires n <= |xs| && x in xs[..n]
    ensures FirstIndex(xs[..n], x) == FirstIndex(xs, x)
  {
    var k := FirstIndex(xs[..n], x);
    var m := FirstIndex(xs, x);
    assert xs[..n][k] == xs[k];
  }

  /** `Dedupe` lists the distinct elements in the order of their first occurrence. */
  lemma {:induction false} DedupeOrder(xs: seq<string>)
    ensures forall i, j :: 0 <= i < j < |Dedupe(xs)| ==>
      FirstIndex(xs, Dedupe(xs)[i]) < FirstIndex(xs, Dedupe(xs)[j])
  {
    if xs != [] {
      var n := |xs| - 1;
      var p := xs[..n];
      var d := Dedupe(p);
      var x := xs[n];
      DedupeOrder(p);
      assert xs == p + [x];
      forall y | y in d
        ensures FirstIndex(xs, y) == FirstIndex(p, y) && FirstIndex(p, y) < n
      {
        FirstIndexPrefix(xs, n, y);
      }
      if x !in d {
        assert x !in p;
        assert FirstIndex(xs, x) == n;
        var r := d + [x];
        forall i, j | 0 <= i < j < |r|
          ensures FirstIndex(xs, r[i]) < FirstIndex(xs, r[j])
        {
          assert r[i] == d[i];
          if j < |d| {
            assert r[j] == d[j];
          }
        }
      }
    }
  }

  /** Every normalised tag is non-empty, stripped, lowercase and comma-free, and none repeats. */
  lemma NormalisedTagsShape(s: string)
    ensures forall i :: 0 <= i < |NormalisedTags(s)| ==> IsCleanTag(NormalisedTags(s)[i])
    ensures NoDup(NormalisedTags(s))
  {
    CleanShape(Split(s, ','));
    var c := CleanPieces(s);
    var r := NormalisedTags(s);
    forall i | 0 <= i < |r|
      ensures IsCleanTag(r[i])
    {
      assert r[i] in c;
    }
  }

  /** A tag is kept exactly when some piece of `s.split(',')` strips to a non-empty string that lowercases to it. */
  lemma NormalisedTagsMembers(s: string, pieces: seq<string>, x: string)
    requires pieces == Split(s, ',')
    ensures x in NormalisedTags(s) <==> exists i :: 0 <= i < |pieces| && Yields(pieces[i], x)
  {
    CleanMembers(pieces, x);
    assert x in NormalisedTags(s) <==> x in Clean(pieces);
  }

  /** The kept tags come in the order of their first appearance among the cleaned pieces. */
  lemma NormalisedTagsOrder(s: string)
    ensures forall i, j :: 0 <= i < j < |NormalisedTags(s)| ==>
      FirstIndex(CleanPieces(s), NormalisedTags(s)[i]) < FirstIndex(CleanPieces(s), NormalisedTags(s)[j])
  {
    DedupeOrder(CleanPieces(s));
  }

  /** A list of distinct clean tags, joined with ',', normalises back to itself. */
  lemma NormaliseJoinFixed(tags: seq<string>)
    requires forall i :: 0 <= i < |tags| ==> IsCleanTag(tags[i])
    requires NoDup(tags)
    ensures NormalisedTags(Join(tags, ",")) == tags
  {
    if tags == [] {
      assert Split("", ',') == [""];
      assert Strip("") == "";
    } else {
      SplitJoin(tags, ',');
      CleanFixed(tags);
      DedupeFixed(tags);
    }
  }

  /** Normalising is idempotent: normalising `",".join(result)` gives the result again. */
  lemma NormaliseIdempotent(s: string)
    ensures NormalisedTags(Join(NormalisedTags(s), ",")) == NormalisedTags(s)
  {
    NormalisedTagsShape(s);
    NormaliseJoinFixed(NormalisedTags(s));
  }
}
