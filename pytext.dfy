/** The Python `str` built-ins the annotation parsers rely on: `isspace`,
    `strip()`, `split()`, `split(None, 2)`, `split(';')`, `startswith`,
    `in` and `replace(pat, '')`, written out over `seq<char>`. */
module PyText {
  import opened Seqs

  /** `str.isspace()` for one character: the characters Python's argument-less
      `split()` and `strip()` treat as whitespace. */
  predicate IsSpace(c: char) {
    || ('\t' <= c <= '\r')
    || ('\U{1c}' <= c <= '\U{1f}')
    || c == ' '
    || c == '\U{85}'
    || c == '\U{a0}'
    || c == '\U{1680}'
    || ('\U{2000}' <= c <= '\U{200a}')
    || c == '\U{2028}'
    || c == '\U{2029}'
    || c == '\U{202f}'
    || c == '\U{205f}'
    || c == '\U{3000}'
  }

  /** Every character of `t` is whitespace. */
  predicate AllSpace(t: string) {
    forall k :: 0 <= k < |t| ==> IsSpace(t[k])
  }

  predicate StartsWith(s: string, prefix: string) {
    |prefix| <= |s| && s[..|prefix|] == prefix
  }

  /** Python's `pat in s`. */
  predicate Contains(s: string, pat: string)
    decreases |s|
  {
    |pat| <= |s| && (s[..|pat|] == pat || (s != [] && Contains(s[1..], pat)))
  }

  /** `s.lstrip()`: drops the leading whitespace. */
  function TrimLeft(s: string): (r: string)
    ensures |r| <= |s|
    ensures r == [] || !IsSpace(r[0])
  {
    if s == [] || !IsSpace(s[0]) then s else TrimLeft(s[1..])
  }

  /** `s.rstrip()`: drops the trailing whitespace. */
  function TrimRight(s: string): (r: string)
    ensures |r| <= |s|
    ensures r == [] || !IsSpace(r[|r| - 1])
    ensures r != [] ==> r[0] == s[0]
  {
    if s == [] || !IsSpace(s[|s| - 1]) then s else TrimRight(s[..|s| - 1])
  }

  /** What `lstrip()` drops is whitespace, and what it keeps is the rest. */
  lemma {:induction false} TrimLeftDrops(s: string)
    ensures var l := TrimLeft(s); l == s[|s| - |l|..] && AllSpace(s[..|s| - |l|])
  {
    if s != [] && IsSpace(s[0]) {
      TrimLeftDrops(s[1..]);
      var l := TrimLeft(s);
      assert s[1..][|s| - 1 - |l|..] == s[|s| - |l|..];
      assert s[..|s| - |l|] == [s[0]] + s[1..][..|s| - 1 - |l|];
    }
  }

  /** What `rstrip()` drops is whitespace, and what it keeps is the rest. */
  lemma {:induction false} TrimRightDrops(s: string)
    ensures var r := TrimRight(s); r == s[..|r|] && AllSpace(s[|r|..])
  {
    if s != [] && IsSpace(s[|s| - 1]) {
      var init := s[..|s| - 1];
      TrimRightDrops(init);
      var r := TrimRight(s);
      assert init[..|r|] == s[..|r|];
      assert s[|r|..] == init[|r|..] + [s[|s| - 1]];
    }
  }

  /** `s.strip()`: the contiguous piece of `s` left once the whitespace at
      either end is cut, with no whitespace at either of its own ends. */
  function Strip(s: string): (r: string)
    ensures |r| <= |s|
    ensures r == [] || (!IsSpace(r[0]) && !IsSpace(r[|r| - 1]))
    ensures exists i, j :: 0 <= i <= j <= |s| && r == s[i..j] && AllSpace(s[..i]) && AllSpace(s[j..])
  {
    var l := TrimLeft(s);
    TrimLeftDrops(s);
    TrimRightDrops(l);
    var i := |s| - |l|;
    var r := TrimRight(l);
    assert r == s[i..i + |r|] && s[i + |r|..] == l[|r|..];
    r
  }

  /** No character of `t` is whitespace. */
  predicate NoSpace(t: string) {
    forall k :: 0 <= k < |t| ==> !IsSpace(t[k])
  }

  /** The longest prefix of `s` that holds no whitespace. */
  function Token(s: string): (t: string)
    ensures |t| <= |s|
    ensures NoSpace(t)
    ensures |t| == |s| || IsSpace(s[|t|])
    ensures s != [] && !IsSpace(s[0]) ==> |t| > 0
  {
    if s == [] || IsSpace(s[0]) then [] else [s[0]] + Token(s[1..])
  }

  /** `s.split()`: the maximal runs of non-whitespace characters, in order. */
  function Split(s: string): (r: seq<string>)
    ensures forall i :: 0 <= i < |r| ==> r[i] != [] && NoSpace(r[i])
    decreases |s|
  {
    var l := TrimLeft(s);
    if l == [] then []
    else
      var t := Token(l);
      [t] + Split(l[|t|..])
  }

  /** The whitespace `split()` drops: the run before the first token, the
      runs between tokens and the run after the last. */
  function SplitGaps(s: string): (g: seq<string>)
    decreases |s|
  {
    var l := TrimLeft(s);
    var lead := s[..|s| - |l|];
    if l == [] then [lead]
    else
      var t := Token(l);
      [lead] + SplitGaps(l[|t|..])
  }

  /** `s.split()` is exactly the maximal runs of non-whitespace characters,
      in order: interleaved with whitespace gaps, the tokens give `s` back,
      and every gap between two tokens is non-empty. */
  lemma SplitRuns(s: string)
    ensures var g := SplitGaps(s); var ts := Split(s);
      && |g| == |ts| + 1
      && (forall i :: 0 <= i < |g| ==> AllSpace(g[i]))
      && (forall i :: 0 < i < |g| - 1 ==> g[i] != [])
      && Interleave(g, ts) == s
  {
    SplitGapsCount(s);
    SplitGapsSpace(s);
    SplitGapsInner(s);
    SplitRebuilds(s);
  }

  /** One step of `split()` and of its gaps: the leading whitespace, the
      first token, and what follows that token. */
  lemma SplitFront(s: string)
    requires TrimLeft(s) != []
    ensures var l := TrimLeft(s); var t := Token(l); var rest := l[|t|..];
      && SplitGaps(s) == [s[..|s| - |l|]] + SplitGaps(rest)
      && Split(s) == [t] + Split(rest)
      && (rest != [] ==> IsSpace(rest[0]))
  {
  }

  /** The leading whitespace, the first token and what follows make up the
      string. */
  lemma SplitFrontJoin(s: string)
    requires TrimLeft(s) != []
    ensures var l := TrimLeft(s); var t := Token(l);
      s == s[..|s| - |l|] + t + l[|t|..]
  {
    var l := TrimLeft(s);
    TrimLeftDrops(s);
    TokenIsPrefix(l);
    assert l == Token(l) + l[|Token(l)|..];
    assert s == s[..|s| - |l|] + l;
  }

  lemma {:induction false} SplitGapsCount(s: string)
    ensures |SplitGaps(s)| == |Split(s)| + 1
    decreases |s|
  {
    if TrimLeft(s) != [] {
      SplitFront(s);
      SplitGapsCount(TrimLeft(s)[|Token(TrimLeft(s))|..]);
    }
  }

  lemma {:induction false} SplitGapsSpace(s: string)
    ensures forall i :: 0 <= i < |SplitGaps(s)| ==> AllSpace(SplitGaps(s)[i])
    decreases |s|
  {
    TrimLeftDrops(s);
    if TrimLeft(s) != [] {
      SplitFront(s);
      SplitGapsSpace(TrimLeft(s)[|Token(TrimLeft(s))|..]);
    }
  }

  lemma {:induction false} SplitGapsInner(s: string)
    ensures forall i :: 0 < i < |SplitGaps(s)| - 1 ==> SplitGaps(s)[i] != []
    decreases |s|
  {
    if TrimLeft(s) != [] {
      SplitFront(s);
      var rest := TrimLeft(s)[|Token(TrimLeft(s))|..];
      SplitGapsInner(rest);
      if TrimLeft(rest) != [] {
        TrimLeftShortens(rest);
      }
    }
  }

  lemma {:induction false} SplitRebuilds(s: string)
    ensures |SplitGaps(s)| == |Split(s)| + 1 && Interleave(SplitGaps(s), Split(s)) == s
    decreases |s|
  {
    SplitGapsCount(s);
    TrimLeftDrops(s);
    var l := TrimLeft(s);
    if l == [] {
      assert s == s[..|s| - |l|];
    } else {
      SplitFront(s);
      SplitFrontJoin(s);
      var t := Token(l);
      var rest := l[|t|..];
      SplitRebuilds(rest);
      InterleaveCons(s[..|s| - |l|], t, SplitGaps(rest), Split(rest));
    }
  }

  /** The token is the front of its string. */
  lemma {:induction false} TokenIsPrefix(s: string)
    ensures Token(s) == s[..|Token(s)|]
  {
    if s != [] && !IsSpace(s[0]) {
      TokenIsPrefix(s[1..]);
    }
  }

  /** A string past a token that is not exhausted starts with whitespace,
      so its leading gap is not empty. */
  lemma TrimLeftShortens(rest: string)
    requires rest != [] ==> IsSpace(rest[0])
    requires TrimLeft(rest) != []
    ensures SplitGaps(rest)[0] != []
  {
  }

  /** `s.split(None, 2)`: at most two leading tokens, then the rest of the
      line with its leading whitespace removed (its trailing whitespace kept)
      if anything is left. */
  function SplitMax2(s: string): (r: seq<string>)
    ensures |r| <= 3
    ensures forall i :: 0 <= i < |r| ==> r[i] != []
  {
    var l1 := TrimLeft(s);
    if l1 == [] then []
    else
      var t1 := Token(l1);
      var l2 := TrimLeft(l1[|t1|..]);
      if l2 == [] then [t1]
      else
        var t2 := Token(l2);
        var l3 := TrimLeft(l2[|t2|..]);
        if l3 == [] then [t1, t2] else [t1, t2, l3]
  }

  /** `s.split(c)`: the pieces between occurrences of `c`; one more piece than
      there are occurrences. */
  function SplitOn(s: string, c: char): (r: seq<string>)
    ensures |r| >= 1
    ensures forall i :: 0 <= i < |r| ==> c !in r[i]
  {
    if s == [] then [""]
    else
      var rest := SplitOn(s[1..], c);
      if s[0] == c then [""] + rest else [[s[0]] + rest[0]] + rest[1..]
  }

  /** `s.replace(pat, '')`: removes the occurrences of `pat` found scanning
      left to right, as Python does (non-overlapping, not re-scanned). */
  function RemoveAll(s: string, pat: string): (r: string)
    requires pat != []
    ensures |r| <= |s|
    decreases |s|
  {
    if |s| < |pat| then s
    else if s[..|pat|] == pat then RemoveAll(s[|pat|..], pat)
    else [s[0]] + RemoveAll(s[1..], pat)
  }

  /** `c.join(pieces)`. */
  function Join(pieces: seq<string>, c: char): string {
    if pieces == [] then ""
    else if |pieces| == 1 then pieces[0]
    else pieces[0] + [c] + Join(pieces[1..], c)
  }

  /** `split(c)` loses nothing: joining the pieces with `c` gives `s` back. */
  lemma {:induction false} SplitOnJoin(s: string, c: char)
    ensures Join(SplitOn(s, c), c) == s
  {
    if s != [] {
      var rest := SplitOn(s[1..], c);
      SplitOnJoin(s[1..], c);
      if s[0] == c {
        assert SplitOn(s, c) == [""] + rest;
        assert ([""] + rest)[1..] == rest;
      } else {
        var r := SplitOn(s, c);
        assert r == [[s[0]] + rest[0]] + rest[1..];
        if |rest| == 1 {
          assert Join(rest, c) == rest[0];
        } else {
          assert r[1..] == rest[1..];
          assert Join(rest, c) == rest[0] + [c] + Join(rest[1..], c);
        }
      }
    }
  }

  lemma {:induction false} TrimLeftIdempotent(s: string)
    ensures TrimLeft(TrimLeft(s)) == TrimLeft(s)
  {
    if s != [] && IsSpace(s[0]) {
      TrimLeftIdempotent(s[1..]);
    }
  }

  /** `split()` ignores leading whitespace. */
  lemma SplitTrimLeft(s: string)
    ensures Split(TrimLeft(s)) == Split(s)
  {
    TrimLeftIdempotent(s);
  }

  /** `split(None, 2)` agrees with `split()`: with fewer than three pieces
      they are the same; with three, the first two are `split()`'s first two
      tokens and the third splits into the remaining tokens, of which there
      is at least one. */
  lemma SplitMax2Agrees(s: string)
    ensures |SplitMax2(s)| < 3 ==> SplitMax2(s) == Split(s)
    ensures |SplitMax2(s)| == 3 ==>
      Split(SplitMax2(s)[2]) != [] && Split(s) == SplitMax2(s)[..2] + Split(SplitMax2(s)[2])
  {
    if |SplitMax2(s)| < 3 {
      SplitMax2Short(s);
    } else {
      SplitMax2Long(s);
    }
  }

  lemma SplitMax2Short(s: string)
    requires |SplitMax2(s)| < 3
    ensures SplitMax2(s) == Split(s)
  {
    var l1 := TrimLeft(s);
    if l1 != [] {
      var t1 := Token(l1);
      var l2 := TrimLeft(l1[|t1|..]);
      SplitStep(s);
      if l2 != [] {
        TrimLeftIdempotent(l1[|t1|..]);
        SplitTail(l2);
        SplitMax2Unfolds(s);
      }
    }
  }

  lemma SplitMax2Long(s: string)
    requires |SplitMax2(s)| == 3
    ensures Split(SplitMax2(s)[2]) != [] && Split(s) == SplitMax2(s)[..2] + Split(SplitMax2(s)[2])
  {
    var l1 := TrimLeft(s);
    var t1 := Token(l1);
    var l2 := TrimLeft(l1[|t1|..]);
    var t2 := Token(l2);
    var l3 := TrimLeft(l2[|t2|..]);
    var r := SplitMax2(s);
    assert r == [t1, t2, l3];
    SplitStep(s);
    TrimLeftIdempotent(l1[|t1|..]);
    SplitTail(l2);
    PrependTwo(t1, t2, Split(s), Split(l2), Split(l3));
    assert r[..2] == [t1, t2];
  }

  lemma PrependTwo<T>(a: T, b: T, x: seq<T>, y: seq<T>, z: seq<T>)
    requires x == [a] + y && y == [b] + z
    ensures x == [a, b] + z
  {
    assert [a] + ([b] + z) == [a, b] + z;
  }

  /** `split(None, 2)` of a line with two leading tokens. */
  lemma SplitMax2Unfolds(s: string)
    requires var l1 := TrimLeft(s); l1 != [] && TrimLeft(l1[|Token(l1)|..]) != []
    ensures var l1 := TrimLeft(s); var l2 := TrimLeft(l1[|Token(l1)|..]);
      var l3 := TrimLeft(l2[|Token(l2)|..]);
      SplitMax2(s) == if l3 == [] then [Token(l1), Token(l2)] else [Token(l1), Token(l2), l3]
  {
  }

  /** The second level of `split(None, 2)`: one more token, then a rest
      that holds a token whenever it is not empty. */
  lemma SplitTail(l2: string)
    requires l2 != [] && TrimLeft(l2) == l2
    ensures var t2 := Token(l2); var l3 := TrimLeft(l2[|t2|..]);
      Split(l2) == [t2] + Split(l3) && (l3 != [] ==> Split(l3) != [])
  {
    SplitStep(l2);
    var l3 := TrimLeft(l2[|Token(l2)|..]);
    if l3 != [] {
      SplitNonEmpty(l3);
    }
  }

  /** A string that does not start with whitespace has a token. */
  lemma SplitNonEmpty(s: string)
    requires s != [] && !IsSpace(s[0])
    ensures Split(s) != []
  {
  }

  /** One token off the front of `split()`. */
  lemma SplitStep(s: string)
    requires TrimLeft(s) != []
    ensures var t := Token(TrimLeft(s));
      Split(s) == [t] + Split(TrimLeft(TrimLeft(s)[|t|..]))
  {
    SplitTrimLeft(TrimLeft(s)[|Token(TrimLeft(s))|..]);
  }

  /** The `if pat in s` guard before `replace` changes nothing: without an
      occurrence, the removal is the identity. */
  lemma {:induction false} RemoveAllAbsent(s: string, pat: string)
    requires pat != [] && !Contains(s, pat)
    ensures RemoveAll(s, pat) == s
  {
    if |s| >= |pat| {
      RemoveAllAbsent(s[1..], pat);
    }
  }

  /** Stripping only removes characters. */
  lemma {:induction false} StripKeepsChars(s: string, c: char)
    ensures c in Strip(s) ==> c in s
  {
    TrimLeftKeepsChars(s, c);
    TrimRightKeepsChars(TrimLeft(s), c);
  }

  lemma {:induction false} TrimLeftKeepsChars(s: string, c: char)
    ensures c in TrimLeft(s) ==> c in s
  {
    if s != [] && IsSpace(s[0]) {
      TrimLeftKeepsChars(s[1..], c);
      assert s == [s[0]] + s[1..];
    }
  }

  lemma {:induction false} TrimRightKeepsChars(s: string, c: char)
    ensures c in TrimRight(s) ==> c in s
  {
    if s != [] && IsSpace(s[|s| - 1]) {
      TrimRightKeepsChars(s[..|s| - 1], c);
      assert s == s[..|s| - 1] + [s[|s| - 1]];
    }
  }

  /** Without an occurrence of `c`, `split(c)` yields the whole string. */
  lemma {:induction false} SplitOnAbsent(s: string, c: char)
    requires c !in s
    ensures SplitOn(s, c) == [s]
  {
    if s != [] {
      SplitOnAbsent(s[1..], c);
      assert s == [s[0]] + s[1..];
    }
  }
}
