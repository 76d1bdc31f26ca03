/** String operations of Python's `str` that the job pipeline relies on, written over
    `seq<char>`: `split(c)`, `split()`, `find`, `rfind`, `startswith`, `strip`,
    `rstrip`, `lower`, `ljust`, and `int()` / `str()` on integers. */
module Text {
  import opened Wrappers

  // ---------------------------------------------------------------------------
  // split(c) and its inverse join

  /** Number of occurrences of `c` in `s`. */
  function CountChar(s: string, c: char): nat
    decreases |s|
  {
    if |s| == 0 then 0
    else CountChar(s[..|s|-1], c) + (if s[|s|-1] == c then 1 else 0)
  }

  /** `s.split(c)`: the pieces between occurrences of `c`, always at least one. */
  function Split(s: string, c: char): (r: seq<string>)
    ensures |r| == CountChar(s, c) + 1
    ensures forall i :: 0 <= i < |r| ==> c !in r[i]
    decreases |s|
  {
    if |s| == 0 then [""]
    else
      var init := Split(s[..|s|-1], c);
      if s[|s|-1] == c then init + [""]
      else init[..|init|-1] + [init[|init|-1] + [s[|s|-1]]]
  }

  /** `c.join(xs)` for a non-empty list. */
  function Join(xs: seq<string>, c: char): string
    requires |xs| >= 1
    decreases |xs|
  {
    if |xs| == 1 then xs[0] else Join(xs[..|xs|-1], c) + [c] + xs[|xs|-1]
  }

  /** Extending the last piece by one character extends the joined text by it. */
  lemma JoinExtendLast(xs: seq<string>, c: char, ch: char)
    requires |xs| >= 1
    ensures Join(xs[..|xs|-1] + [xs[|xs|-1] + [ch]], c) == Join(xs, c) + [ch]
  {
    var k := |xs| - 1;
    var ys := xs[..k] + [xs[k] + [ch]];
    if k > 0 {
      assert ys[..k] == xs[..k];
    }
  }

  /** Joining the pieces of a split with the same separator gives the text back. */
  lemma {:induction false} JoinSplit(s: string, c: char)
    ensures Join(Split(s, c), c) == s
    decreases |s|
  {
    if |s| > 0 {
      var s' := s[..|s|-1];
      var init := Split(s', c);
      JoinSplit(s', c);
      if s[|s|-1] == c {
        assert (init + [""])[..|init|] == init;
      } else {
        JoinExtendLast(init, c, s[|s|-1]);
      }
      assert s == s' + [s[|s|-1]];
    }
  }

  /** A text without the separator is one piece. */
  lemma {:induction false} SplitNoSep(w: string, c: char)
    ensures c !in w ==> Split(w, c) == [w]
    decreases |w|
  {
    if |w| > 0 && c !in w {
      SplitNoSep(w[..|w|-1], c);
      assert w == w[..|w|-1] + [w[|w|-1]];
    }
  }

  /** Appending a separator and a separator-free tail adds exactly one piece. */
  lemma {:induction false} SplitAppendSep(u: string, w: string, c: char)
    requires c !in w
    ensures Split(u + [c] + w, c) == Split(u, c) + [w]
    decreases |w|
  {
    var s := u + [c] + w;
    if |w| == 0 {
      assert s[..|s|-1] == u;
    } else {
      var w' := w[..|w|-1];
      assert s[..|s|-1] == u + [c] + w';
      SplitAppendSep(u, w', c);
      assert w == w' + [w[|w|-1]];
    }
  }

  lemma {:induction false} JoinPrefix(xs: seq<string>, c: char)
    requires |xs| >= 1
    ensures |xs[0]| <= |Join(xs, c)| && Join(xs, c)[..|xs[0]|] == xs[0]
    ensures |xs| > 1 ==> |xs[0]| < |Join(xs, c)| && Join(xs, c)[|xs[0]|] == c
    decreases |xs|
  {
    if |xs| > 1 {
      var p := xs[..|xs|-1];
      JoinPrefix(p, c);
      assert p[0] == xs[0];
      if |p| == 1 {
        assert Join(p, c) == xs[0];
      }
    }
  }

  /** Joining peels off from the front as well as from the back. */
  lemma {:induction false} JoinCons(xs: seq<string>, c: char)
    requires |xs| >= 2
    ensures Join(xs, c) == xs[0] + [c] + Join(xs[1..], c)
    decreases |xs|
  {
    if |xs| > 2 {
      var p := xs[..|xs|-1];
      JoinCons(p, c);
      assert p[1..] == xs[1..][..|xs[1..]|-1];
    } else {
      assert xs[..1] == [xs[0]];
    }
  }

  /** Joining a list is joining its two halves around one more separator. */
  lemma {:induction false} JoinSplitAt(xs: seq<string>, c: char, k: int)
    requires 1 <= k < |xs|
    ensures Join(xs, c) == Join(xs[..k], c) + [c] + Join(xs[k..], c)
    decreases k
  {
    if k == 1 {
      JoinCons(xs, c);
    } else {
      var ys := xs[..k];
      JoinSplitAt(xs[1..], c, k - 1);
      JoinCons(xs, c);
      JoinCons(ys, c);
      assert xs[1..][..k-1] == ys[1..];
      assert xs[1..][k-1..] == xs[k..];
    }
  }

  /** A joined list starts with the join of any non-empty prefix of it. */
  lemma JoinStarts(xs: seq<string>, c: char, j: int)
    requires 1 <= j <= |xs|
    ensures StartsWith(Join(xs, c), Join(xs[..j], c))
  {
    if j < |xs| {
      JoinSplitAt(xs, c, j);
    } else {
      assert xs[..j] == xs;
    }
  }

  lemma Join4(xs: seq<string>, c: char)
    requires |xs| == 4
    ensures Join(xs, c) == xs[0] + [c] + xs[1] + [c] + xs[2] + [c] + xs[3]
  {
    var a := xs[..3];
    var b := a[..2];
    assert b[..1] == [xs[0]];
    assert Join(b, c) == xs[0] + [c] + xs[1];
    assert Join(a, c) == Join(b, c) + [c] + xs[2];
  }

  /** Splitting a join of separator-free pieces gives the pieces back. */
  lemma {:induction false} SplitJoin(xs: seq<string>, c: char)
    requires |xs| >= 1 && forall i :: 0 <= i < |xs| ==> c !in xs[i]
    ensures Split(Join(xs, c), c) == xs
    decreases |xs|
  {
    if |xs| == 1 {
      SplitNoSep(xs[0], c);
    } else {
      var init := xs[..|xs|-1];
      assert forall i :: 0 <= i < |init| ==> init[i] == xs[i];
      SplitJoin(init, c);
      assert Join(xs, c) == Join(init, c) + [c] + xs[|xs|-1];
      SplitAppendSep(Join(init, c), xs[|xs|-1], c);
      assert xs == init + [xs[|xs|-1]];
    }
  }

  /** The pieces of `a + b` built from the pieces `xs` of `a` and `ys` of `b`: the
      last piece of `a` and the first of `b` merge. */
  function Glue(xs: seq<string>, ys: seq<string>): seq<string>
    requires |xs| >= 1 && |ys| >= 1
  {
    xs[..|xs| - 1] + [xs[|xs| - 1] + ys[0]] + ys[1..]
  }

  lemma SplitSnocSep(s: string, c: char)
    ensures Split(s + [c], c) == Split(s, c) + [""]
  {
    assert (s + [c])[..|s|] == s;
  }

  lemma SplitSnocOther(s: string, x: char, c: char)
    requires x != c
    ensures Split(s + [x], c) == Split(s, c)[..|Split(s, c)| - 1] + [Split(s, c)[|Split(s, c)| - 1] + [x]]
  {
    assert (s + [x])[..|s|] == s;
  }

  lemma GlueSep(xs: seq<string>, ys: seq<string>)
    requires |xs| >= 1 && |ys| >= 1
    ensures Glue(xs, ys + [""]) == Glue(xs, ys) + [""]
  {
    assert (ys + [""])[1..] == ys[1..] + [""];
  }

  lemma GlueOther(xs: seq<string>, ys: seq<string>, x: char)
    requires |xs| >= 1 && |ys| >= 1
    ensures Glue(xs, ys[..|ys| - 1] + [ys[|ys| - 1] + [x]])
      == Glue(xs, ys)[..|Glue(xs, ys)| - 1] + [Glue(xs, ys)[|Glue(xs, ys)| - 1] + [x]]
  {
    var ys' := ys[..|ys| - 1] + [ys[|ys| - 1] + [x]];
    var g := Glue(xs, ys);
    if |ys| == 1 {
      assert ys' == [ys[0] + [x]];
      assert xs[|xs| - 1] + (ys[0] + [x]) == (xs[|xs| - 1] + ys[0]) + [x];
      assert g == xs[..|xs| - 1] + [xs[|xs| - 1] + ys[0]];
    } else {
      assert ys'[0] == ys[0];
      assert ys'[1..] == ys[1..|ys| - 1] + [ys[|ys| - 1] + [x]];
      assert g[..|g| - 1] == xs[..|xs| - 1] + [xs[|xs| - 1] + ys[0]] + ys[1..|ys| - 1];
    }
  }

  /** Splitting a concatenation: the pieces of `a`, with the last one glued to the first
      piece of `b`, then the remaining pieces of `b`. */
  lemma {:induction false} SplitConcat(a: string, b: string, c: char)
    ensures Split(a + b, c) == Glue(Split(a, c), Split(b, c))
    decreases |b|
  {
    if |b| == 0 {
      SplitConcatEmpty(a, c);
      assert a + b == a && b == [];
    } else {
      var b' := b[..|b| - 1];
      var x := b[|b| - 1];
      SplitConcat(a, b', c);
      assert b == b' + [x];
      SplitConcatSnoc(a, b', x, c);
    }
  }

  lemma SplitConcatEmpty(a: string, c: char)
    ensures Split(a, c) == Glue(Split(a, c), Split([], c))
  {
    var A := Split(a, c);
    assert Split([], c) == [""];
    assert A[|A| - 1] + "" == A[|A| - 1];
    assert A == A[..|A| - 1] + [A[|A| - 1]];
  }

  /** One more character at the end of `b` keeps the glued split in step. */
  lemma SplitConcatSnoc(a: string, b': string, x: char, c: char)
    requires Split(a + b', c) == Glue(Split(a, c), Split(b', c))
    ensures Split(a + (b' + [x]), c) == Glue(Split(a, c), Split(b' + [x], c))
  {
    assert a + (b' + [x]) == (a + b') + [x];
    if x == c {
      SnocSepStep(a, b', c);
    } else {
      SnocOtherStep(a, b', x, c);
    }
  }

  lemma SnocSepStep(a: string, b': string, c: char)
    requires Split(a + b', c) == Glue(Split(a, c), Split(b', c))
    ensures Split((a + b') + [c], c) == Glue(Split(a, c), Split(b' + [c], c))
  {
    SplitSnocSep(a + b', c);
    SplitSnocSep(b', c);
    GlueSep(Split(a, c), Split(b', c));
  }

  lemma SnocOtherStep(a: string, b': string, x: char, c: char)
    requires x != c
    requires Split(a + b', c) == Glue(Split(a, c), Split(b', c))
    ensures Split((a + b') + [x], c) == Glue(Split(a, c), Split(b' + [x], c))
  {
    SplitSnocOther(a + b', x, c);
    SplitSnocOther(b', x, c);
    GlueOtherAt(Split(a + b', c), Split(a, c), Split(b', c), x);
  }

  lemma GlueOtherAt(g: seq<string>, xs: seq<string>, ys: seq<string>, x: char)
    requires |xs| >= 1 && |ys| >= 1 && g == Glue(xs, ys)
    ensures |g| >= 1
    ensures g[..|g| - 1] + [g[|g| - 1] + [x]] == Glue(xs, ys[..|ys| - 1] + [ys[|ys| - 1] + [x]])
  {
    GlueOther(xs, ys, x);
  }

  /** Splitting after prepending one character. */
  lemma SplitCons(ch: char, s: string, c: char)
    ensures ch == c ==> Split([ch] + s, c) == [""] + Split(s, c)
    ensures ch != c ==> Split([ch] + s, c) == [[ch] + Split(s, c)[0]] + Split(s, c)[1..]
  {
    SplitConcat([ch], s, c);
    SplitOne(ch, c);
    var S := Split(s, c);
    if ch == c {
      GlueTwoEmpty(S);
    } else {
      GlueSingle([ch], S);
    }
  }

  /** The pieces of a one-character string. */
  lemma SplitOne(ch: char, c: char)
    ensures ch == c ==> Split([ch], c) == ["", ""]
    ensures ch != c ==> Split([ch], c) == [[ch]]
  {
    assert [ch][..0] == [];
    assert [ch] == [] + [ch];
    if ch == c {
      SplitSnocSep([], c);
    } else {
      SplitSnocOther([], ch, c);
    }
  }

  lemma GlueTwoEmpty(ys: seq<string>)
    requires |ys| >= 1
    ensures Glue(["", ""], ys) == [""] + ys
  {
    assert ["", ""][..1] == [""];
    assert "" + ys[0] == ys[0];
    assert ys == [ys[0]] + ys[1..];
  }

  lemma GlueSingle(x: string, ys: seq<string>)
    requires |ys| >= 1
    ensures Glue([x], ys) == [x + ys[0]] + ys[1..]
  {
    assert [x][..0] == [];
  }

  /** `s.split(c).pop()`: the text after the last `c` (all of `s` when there is none). */
  function AfterLast(s: string, c: char): (r: string)
    ensures c !in r
    ensures |r| <= |s| && s[|s|-|r|..] == r
    ensures |r| < |s| ==> s[|s|-|r|-1] == c
    ensures c !in s ==> r == s
  {
    var xs := Split(s, c);
    JoinSplit(s, c);
    SplitNoSep(s, c);
    assert |xs| > 1 ==> Join(xs, c) == Join(xs[..|xs|-1], c) + [c] + xs[|xs|-1];
    xs[|xs|-1]
  }

  /** `s.split(c).pop(0)`: the text before the first `c` (all of `s` when there is none). */
  function BeforeFirst(s: string, c: char): (r: string)
    ensures c !in r
    ensures |r| <= |s| && s[..|r|] == r
    ensures |r| < |s| ==> s[|r|] == c
    ensures c !in s ==> r == s
  {
    var xs := Split(s, c);
    JoinSplit(s, c);
    JoinPrefix(xs, c);
    SplitNoSep(s, c);
    xs[0]
  }

  /** The text after the last `c` of `u + [c] + m` is `m` when `m` has no `c`. */
  lemma AfterLastOf(u: string, m: string, c: char)
    requires c !in m
    ensures AfterLast(u + [c] + m, c) == m
  {
    SplitAppendSep(u, m, c);
  }

  /** The text before the first `c` of `n + [c] + d` is `n` when `n` has no `c`. */
  lemma BeforeFirstOf(n: string, d: string, c: char)
    requires c !in n
    ensures BeforeFirst(n + [c] + d, c) == n
  {
    SplitNoSep(n, c);
    SplitSnocSep(n, c);
    SplitConcat(n + [c], d, c);
  }

  // ---------------------------------------------------------------------------
  // find, rfind, startswith

  /** `needle` occurs in `hay` starting at index `i`. */
  predicate OccursAt(hay: string, needle: string, i: int) {
    0 <= i && i + |needle| <= |hay| && hay[i..i+|needle|] == needle
  }

  function FindFrom(hay: string, needle: string, i: nat): (r: int)
    ensures r == -1 || (i <= r && OccursAt(hay, needle, r))
    ensures r == -1 ==> forall j :: i <= j ==> !OccursAt(hay, needle, j)
    ensures r >= 0 ==> forall j :: i <= j < r ==> !OccursAt(hay, needle, j)
    decreases |hay| - i
  {
    if i + |needle| > |hay| then -1
    else if hay[i..i+|needle|] == needle then i
    else FindFrom(hay, needle, i + 1)
  }

  /** `hay.find(needle)`: the first index where `needle` occurs, or -1. */
  function Find(hay: string, needle: string): (r: int)
    ensures r >= 0 <==> exists j :: OccursAt(hay, needle, j)
    ensures r >= 0 ==> OccursAt(hay, needle, r) && forall j :: 0 <= j < r ==> !OccursAt(hay, needle, j)
  {
    FindFrom(hay, needle, 0)
  }

  /** `hay.find(needle) >= 0`. */
  predicate Contains(hay: string, needle: string) {
    Find(hay, needle) >= 0
  }

  function RFindBelow(hay: string, needle: string, i: int): (r: int)
    requires i <= |hay|
    ensures r == -1 || (0 <= r <= i && OccursAt(hay, needle, r))
    ensures forall j :: r < j <= i ==> !OccursAt(hay, needle, j)
    decreases i + 1
  {
    if i < 0 then -1
    else if OccursAt(hay, needle, i) then i
    else RFindBelow(hay, needle, i - 1)
  }

  /** `hay.rfind(needle)`: the last index where `needle` occurs, or -1. */
  function RFind(hay: string, needle: string): (r: int)
    ensures r == -1 ==> forall j :: !OccursAt(hay, needle, j)
    ensures r >= 0 ==> OccursAt(hay, needle, r) && forall j :: r < j ==> !OccursAt(hay, needle, j)
  {
    var r := RFindBelow(hay, needle, |hay|);
    assert forall j :: j > |hay| ==> !OccursAt(hay, needle, j);
    r
  }

  predicate StartsWith(s: string, prefix: string) {
    |prefix| <= |s| && s[..|prefix|] == prefix
  }

  predicate EndsWith(s: string, suffix: string) {
    |suffix| <= |s| && s[|s|-|suffix|..] == suffix
  }

  lemma PrefixExtend(x: string, b: string, p: string)
    requires StartsWith(b, p)
    ensures StartsWith(x + b, x + p)
  {
    assert (x + b)[..|x + p|] == x + b[..|p|];
  }

  lemma OccursAfter(a: string, b: string, p: string)
    requires StartsWith(b, p)
    ensures OccursAt(a + b, p, |a|)
  {
    assert (a + b)[|a|..|a| + |p|] == b[..|p|];
  }

  lemma OccursPrefix(h: string, n: string, p: string, i: int)
    requires OccursAt(h, n, i) && StartsWith(n, p)
    ensures OccursAt(h, p, i)
  {
    assert h[i..i+|p|] == h[i..i+|n|][..|p|];
  }

  /** `s.find(p) == 0` is the same test as `s.startswith(p)`. */
  lemma FindZeroIsPrefix(s: string, p: string)
    ensures Find(s, p) == 0 <==> StartsWith(s, p)
  {
    if StartsWith(s, p) {
      assert OccursAt(s, p, 0);
    }
  }

  /** `s.replace(pat, rep)`: the occurrences of `pat` found scanning left to right,
      none overlapping the previous one, each replaced by `rep`. */
  function Replace(s: string, pat: string, rep: string): (r: string)
    requires |pat| > 0
    ensures (forall i :: !OccursAt(s, pat, i)) ==> r == s
    decreases |s|
  {
    if |s| < |pat| then s
    else if s[..|pat|] == pat then
      assert OccursAt(s, pat, 0);
      rep + Replace(s[|pat|..], pat, rep)
    else
      assert forall i :: OccursAt(s[1..], pat, i) ==> OccursAt(s, pat, i + 1) by {
        forall i | OccursAt(s[1..], pat, i)
          ensures OccursAt(s, pat, i + 1)
        {
          assert s[1..][i..i + |pat|] == s[i + 1..i + 1 + |pat|];
        }
      }
      [s[0]] + Replace(s[1..], pat, rep)
  }

  // ---------------------------------------------------------------------------
  // whitespace: strip, rstrip, split()

  /** The ASCII characters Python's `str.isspace` accepts. */
  predicate IsSpace(c: char) {
    c == ' ' || c == '\t' || c == '\n' || c == '\r' || c == '\U{B}' || c == '\U{C}'
    || c == '\U{1C}' || c == '\U{1D}' || c == '\U{1E}' || c == '\U{1F}'
  }

  predicate NoSpace(s: string) {
    forall i :: 0 <= i < |s| ==> !IsSpace(s[i])
  }

  /** `s.rstrip()`. */
  function RStrip(s: string): (r: string)
    ensures |r| <= |s| && r == s[..|r|]
    ensures |r| == 0 || !IsSpace(r[|r|-1])
    ensures forall i :: |r| <= i < |s| ==> IsSpace(s[i])
    decreases |s|
  {
    if |s| == 0 || !IsSpace(s[|s|-1]) then s else RStrip(s[..|s|-1])
  }

  /** `s.lstrip()`. */
  function LStrip(s: string): (r: string)
    ensures |r| <= |s| && r == s[|s|-|r|..]
    ensures |r| == 0 || !IsSpace(r[0])
    ensures forall i :: 0 <= i < |s| - |r| ==> IsSpace(s[i])
    decreases |s|
  {
    if |s| == 0 || !IsSpace(s[0]) then s else LStrip(s[1..])
  }

  /** `s.strip()`: `s` without leading and trailing whitespace. */
  function Strip(s: string): (r: string)
    ensures |r| <= |s|
    ensures |r| == 0 || (!IsSpace(r[0]) && !IsSpace(r[|r|-1]))
  {
    LStrip(RStrip(s))
  }

  /** Text that neither starts nor ends with whitespace is its own strip. */
  lemma StripTrimmed(s: string)
    requires |s| > 0 && !IsSpace(s[0]) && !IsSpace(s[|s|-1])
    ensures Strip(s) == s
  {
  }

  lemma StripNoSpace(s: string)
    requires NoSpace(s)
    ensures Strip(s) == s
  {
  }

  /** The longest prefix of `s` without whitespace. */
  function Word(s: string): (r: string)
    ensures |r| <= |s| && r == s[..|r|] && NoSpace(r)
    ensures |r| < |s| ==> IsSpace(s[|r|])
    decreases |s|
  {
    if |s| == 0 || IsSpace(s[0]) then "" else [s[0]] + Word(s[1..])
  }

  /** `s.split()`: the maximal runs of non-whitespace characters. */
  function Tokens(s: string): (r: seq<string>)
    ensures forall i :: 0 <= i < |r| ==> |r[i]| > 0 && NoSpace(r[i])
    decreases |s|
  {
    if |s| == 0 then []
    else if IsSpace(s[0]) then Tokens(s[1..])
    else
      var w := Word(s);
      [w] + Tokens(s[|w|..])
  }

  /** A word followed by whitespace (or nothing) is read as that word. */
  lemma {:induction false} WordStops(w: string, rest: string)
    requires NoSpace(w) && (|rest| == 0 || IsSpace(rest[0]))
    ensures Word(w + rest) == w
    decreases |w|
  {
    if |w| == 0 {
      assert w + rest == rest;
    } else {
      assert (w + rest)[1..] == w[1..] + rest;
      WordStops(w[1..], rest);
      assert w == [w[0]] + w[1..];
    }
  }

  lemma TokensOfWord(w: string)
    requires |w| > 0 && NoSpace(w)
    ensures Tokens(w) == [w]
  {
    WordStops(w, "");
    assert w + "" == w;
    assert w[|w|..] == "";
  }

  lemma TokensAfterSpace(w: string)
    ensures Tokens(" " + w) == Tokens(w)
  {
    assert (" " + w)[1..] == w;
  }

  /** Two words separated by one space split into exactly those two words. */
  lemma TokensOfTwo(w1: string, w2: string)
    requires |w1| > 0 && |w2| > 0 && NoSpace(w1) && NoSpace(w2)
    ensures Tokens(w1 + " " + w2) == [w1, w2]
  {
    var s := w1 + " " + w2;
    WordStops(w1, " " + w2);
    assert s == w1 + (" " + w2);
    assert !IsSpace(s[0]);
    assert Word(s) == w1;
    assert s[|w1|..] == " " + w2;
    TokensAfterSpace(w2);
    TokensOfWord(w2);
    assert Tokens(s) == [w1] + Tokens(" " + w2);
  }

  function Concat(xs: seq<string>): string {
    if |xs| == 0 then "" else xs[0] + Concat(xs[1..])
  }

  /** The characters of `s` that are not whitespace, in order. */
  function NonSpace(s: string): string {
    if |s| == 0 then "" else (if IsSpace(s[0]) then "" else [s[0]]) + NonSpace(s[1..])
  }

  lemma {:induction false} NonSpaceAppend(a: string, b: string)
    ensures NonSpace(a + b) == NonSpace(a) + NonSpace(b)
    decreases |a|
  {
    if |a| > 0 {
      assert (a + b)[1..] == a[1..] + b;
      NonSpaceAppend(a[1..], b);
    } else {
      assert a + b == b;
    }
  }

  lemma {:induction false} NonSpaceOfWord(w: string)
    requires NoSpace(w)
    ensures NonSpace(w) == w
    decreases |w|
  {
    if |w| > 0 {
      NonSpaceOfWord(w[1..]);
      assert w == [w[0]] + w[1..];
    }
  }

  /** Tokenising loses exactly the whitespace: the tokens spell the non-space text. */
  lemma {:induction false} TokensSpellText(s: string)
    ensures Concat(Tokens(s)) == NonSpace(s)
    decreases |s|
  {
    if |s| > 0 {
      if IsSpace(s[0]) {
        TokensSpellText(s[1..]);
      } else {
        var w := Word(s);
        TokensSpellText(s[|w|..]);
        assert s == w + s[|w|..];
        NonSpaceAppend(w, s[|w|..]);
        NonSpaceOfWord(w);
        assert Tokens(s) == [w] + Tokens(s[|w|..]);
        assert Concat([w] + Tokens(s[|w|..])) == w + Concat(Tokens(s[|w|..]));
      }
    }
  }

  // ---------------------------------------------------------------------------
  // lower, reverse, padding

  function LowerChar(c: char): char {
    if 'A' <= c <= 'Z' then (c as int + 32) as char else c
  }

  predicate IsUpper(c: char) {
    'A' <= c <= 'Z'
  }

  /** `s.lower()` restricted to ASCII letters. */
  function Lower(s: string): (r: string)
    ensures |r| == |s|
    ensures forall i :: 0 <= i < |s| ==> r[i] == LowerChar(s[i])
    ensures forall i :: 0 <= i < |r| ==> !IsUpper(r[i])
  {
    seq(|s|, i requires 0 <= i < |s| => LowerChar(s[i]))
  }

  /** `s[::-1]`. */
  function Reverse(s: string): (r: string)
    ensures |r| == |s|
    ensures forall i :: 0 <= i < |s| ==> r[i] == s[|s|-1-i]
  {
    seq(|s|, i requires 0 <= i < |s| => s[|s|-1-i])
  }

  lemma ReverseAppendChar(s: string, c: char)
    ensures Reverse(s + [c]) == [c] + Reverse(s)
  {
  }

  lemma ReverseTwice(s: string)
    ensures Reverse(Reverse(s)) == s
  {
  }

  lemma ReversePrependChar(c: char, s: string)
    ensures Reverse([c] + s) == Reverse(s) + [c]
  {
  }

  function Repeat(c: char, n: int): (r: string)
    ensures |r| == if n < 0 then 0 else n
    ensures forall i :: 0 <= i < |r| ==> r[i] == c
  {
    if n <= 0 then "" else seq(n, i => c)
  }

  /** `'%-w.ws' % s`: `s` cut to `w` characters and padded with spaces to `w`. */
  function FormatCell(s: string, w: nat): (r: string)
    ensures |r| == w
    ensures |s| <= w ==> r == s + Repeat(' ', w - |s|)
    ensures |s| > w ==> r == s[..w]
  {
    var t := if |s| <= w then s else s[..w];
    t + Repeat(' ', w - |t|)
  }

  // ---------------------------------------------------------------------------
  // integers: str(n) and int(s)

  predicate IsDigit(c: char) {
    '0' <= c <= '9'
  }

  predicate AllDigits(s: string) {
    forall i :: 0 <= i < |s| ==> IsDigit(s[i])
  }

  function DigitChar(d: nat): char
    requires d < 10
  {
    ('0' as int + d) as char
  }

  function NatToString(n: nat): (r: string)
    ensures |r| > 0 && AllDigits(r)
  {
    if n < 10 then [DigitChar(n)] else NatToString(n / 10) + [DigitChar(n % 10)]
  }

  /** `str(n)` / `'%d' % n`. */
  function IntToString(n: int): (r: string)
    ensures |r| > 0 && NoSpace(r) && '.' !in r && '/' !in r
  {
    if n < 0 then "-" + NatToString(-n) else NatToString(n)
  }

  function DigitsValue(s: string): nat
    requires AllDigits(s)
    decreases |s|
  {
    if |s| == 0 then 0
    else DigitsValue(s[..|s|-1]) * 10 + (s[|s|-1] as int - '0' as int)
  }

  lemma {:induction false} DigitsRoundTrip(n: nat)
    ensures DigitsValue(NatToString(n)) == n
    decreases n
  {
    if n >= 10 {
      var s := NatToString(n);
      DigitsRoundTrip(n / 10);
      assert s[..|s|-1] == NatToString(n / 10);
    }
  }

  /** Python `int(s)` on text: optional surrounding whitespace, an optional sign and
      at least one ASCII digit. */
  function ParseInt(s: string): (r: Option<int>)
    ensures r.Some? ==> |Strip(s)| > 0
  {
    var t := Strip(s);
    if |t| > 0 && (t[0] == '-' || t[0] == '+') then
      var d := t[1..];
      if |d| > 0 && AllDigits(d) then
        var v: int := DigitsValue(d);
        Some(if t[0] == '-' then -v else v)
      else None
    else if |t| > 0 && AllDigits(t) then Some(DigitsValue(t))
    else None
  }

  /** `int(str(n)) == n`: printing an integer and parsing it back is the identity. */
  lemma IntRoundTrip(n: int)
    ensures ParseInt(IntToString(n)) == Some(n)
  {
    var s := IntToString(n);
    StripNoSpace(s);
    if n < 0 {
      DigitsRoundTrip(-n);
      assert s[1..] == NatToString(-n);
    } else {
      DigitsRoundTrip(n);
    }
  }

  /** `str` is injective on integers. */
  lemma IntToStringInjective(a: int, b: int)
    requires IntToString(a) == IntToString(b)
    ensures a == b
  {
    IntRoundTrip(a);
    IntRoundTrip(b);
  }

  // ---------------------------------------------------------------------------
  // decimal numbers: float(s)

  function Pow10(k: nat): (r: nat)
    ensures r >= 1
  {
    if k == 0 then 1 else 10 * Pow10(k - 1)
  }

  /** The value of an unsigned decimal `ddd`, `ddd.`, `ddd.ddd` or `.ddd`. */
  function UnsignedDecimal(t: string): Option<real> {
    var dot := Find(t, ".");
    if dot < 0 then
      if |t| > 0 && AllDigits(t) then Some(DigitsValue(t) as real) else None
    else
      var whole := t[..dot];
      var frac := t[dot+1..];
      if AllDigits(whole) && AllDigits(frac) && |whole| + |frac| > 0 then
        Some(DigitsValue(whole) as real + (DigitsValue(frac) as real) / (Pow10(|frac|) as real))
      else None
  }

  /** Python `float(s)` on decimal text with optional whitespace and sign. */
  function ParseFloat(s: string): Option<real> {
    var t := Strip(s);
    if |t| > 0 && (t[0] == '-' || t[0] == '+') then
      match UnsignedDecimal(t[1..])
      case Some(x) => Some(if t[0] == '-' then -x else x)
      case None => None
    else UnsignedDecimal(t)
  }

  /** A text in which `find` locates a single character contains that character. */
  lemma FoundCharIn(t: string, ch: char)
    ensures Find(t, [ch]) >= 0 ==> ch in t
  {
    var j := Find(t, [ch]);
    if j >= 0 {
      assert t[j..j+1][0] == t[j];
    }
  }

  lemma NoDotNotFound(t: string)
    requires '.' !in t
    ensures Find(t, ".") < 0
  {
    FoundCharIn(t, '.');
  }

  /** Digit text without a point reads as the integer it spells. */
  lemma UnsignedDigits(t: string)
    requires |t| > 0 && AllDigits(t)
    ensures UnsignedDecimal(t) == Some(DigitsValue(t) as real)
  {
    NoDotNotFound(t);
  }

  /** `float(str(n)) == n` for integers. */
  lemma FloatOfIntString(n: int)
    ensures ParseFloat(IntToString(n)) == Some(n as real)
  {
    var s := IntToString(n);
    StripNoSpace(s);
    if n < 0 {
      DigitsRoundTrip(-n);
      assert s[1..] == NatToString(-n);
      UnsignedDigits(s[1..]);
    } else {
      DigitsRoundTrip(n);
      UnsignedDigits(s);
    }
  }
}
