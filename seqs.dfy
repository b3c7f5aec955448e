/** Order-preserving selection from a sequence, the reference against which
    the bisect-based slices are proved. */
module Seqs {

  /** The elements of `s` that satisfy `p`, in their original order. */
  function Filter<T>(s: seq<T>, p: T -> bool): (r: seq<T>)
    ensures |r| <= |s|
    ensures forall k :: 0 <= k < |r| ==> p(r[k])
  {
    if s == [] then []
    else Filter(s[..|s| - 1], p) + (if p(s[|s| - 1]) then [s[|s| - 1]] else [])
  }

  lemma {:induction false} FilterMembers<T>(s: seq<T>, p: T -> bool, x: T)
    ensures x in Filter(s, p) <==> x in s && p(x)
  {
    if s != [] {
      FilterMembers(s[..|s| - 1], p, x);
      assert s == s[..|s| - 1] + [s[|s| - 1]];
    }
  }

  /** When `p` holds exactly at the positions `lo..hi`, the selection is that
      contiguous slice. */
  lemma {:induction false} FilterIsSlice<T>(s: seq<T>, p: T -> bool, lo: nat, hi: nat)
    requires lo <= hi <= |s|
    requires forall k :: 0 <= k < |s| ==> (p(s[k]) <==> lo <= k < hi)
    ensures Filter(s, p) == s[lo..hi]
  {
    if s != [] {
      var n := |s|;
      var init, last := s[..n - 1], s[n - 1];
      assert Filter(s, p) == Filter(init, p) + (if p(last) then [last] else []);
      var lo', hi' := if lo < n then lo else n - 1, if hi < n then hi else n - 1;
      forall k | 0 <= k < n - 1 ensures p(init[k]) <==> lo' <= k < hi' {
        assert init[k] == s[k];
      }
      FilterIsSlice(init, p, lo', hi');
      if hi == n && lo < n {
        assert s[lo..n] == init[lo..n - 1] + [last];
      } else if hi < n {
        assert s[lo..hi] == init[lo..hi];
      }
    }
  }

  /** When `p` holds nowhere, nothing is selected. */
  lemma {:induction false} FilterNone<T>(s: seq<T>, p: T -> bool)
    requires forall k :: 0 <= k < |s| ==> !p(s[k])
    ensures Filter(s, p) == []
  {
    if s != [] {
      FilterNone(s[..|s| - 1], p);
    }
  }

  /** Selection seen from the front. */
  lemma {:induction false} FilterCons<T>(x: T, s: seq<T>, p: T -> bool)
    ensures Filter([x] + s, p) == (if p(x) then [x] else []) + Filter(s, p)
    decreases |s|
  {
    if s == [] {
      assert [x] + s == [x];
      assert [x][..0] == [];
    } else {
      var xs := [x] + s;
      assert xs[..|xs| - 1] == [x] + s[..|s| - 1];
      FilterCons(x, s[..|s| - 1], p);
    }
  }

  /** Two selections that agree position by position have the same size. */
  lemma {:induction false} FilterSameLength<A, B>(s: seq<A>, p: A -> bool, t: seq<B>, q: B -> bool)
    requires |s| == |t|
    requires forall k :: 0 <= k < |s| ==> (p(s[k]) <==> q(t[k]))
    ensures |Filter(s, p)| == |Filter(t, q)|
  {
    if s != [] {
      FilterSameLength(s[..|s| - 1], p, t[..|t| - 1], q);
    }
  }

  /** Selecting from a list with one more element at its end. */
  lemma FilterSnoc<T>(a: seq<T>, x: T, p: T -> bool)
    ensures Filter(a + [x], p) == Filter(a, p) + (if p(x) then [x] else [])
  {
    assert (a + [x])[..|a|] == a && (a + [x])[|a|] == x;
  }

  /** Two pieces of which one is empty can be appended in either order. */
  lemma SwapEmpty<T>(a: seq<T>, u: seq<T>, v: seq<T>)
    requires u == [] || v == []
    ensures a + u + v == a + v + u
  {
    if u == [] {
      assert a + u == a;
    } else {
      assert a + v == a;
    }
  }

  /** Selection distributes over concatenation. */
  lemma {:induction false} FilterAppend<T>(a: seq<T>, b: seq<T>, p: T -> bool)
    ensures Filter(a + b, p) == Filter(a, p) + Filter(b, p)
    decreases |b|
  {
    if b == [] {
      assert a + b == a;
    } else {
      var init, last := b[..|b| - 1], b[|b| - 1];
      var tail := if p(last) then [last] else [];
      FilterAppend(a, init, p);
      assert (a + b)[..|a + b| - 1] == a + init && (a + b)[|a + b| - 1] == last;
      assert Filter(a + b, p) == Filter(a + init, p) + tail;
      assert Filter(b, p) == Filter(init, p) + tail;
    }
  }

  /** The multiset of a non-empty sequence, seen from its last element. */
  lemma MultisetSnoc<T>(s: seq<T>)
    requires s != []
    ensures multiset(s) == multiset(s[..|s| - 1]) + multiset{s[|s| - 1]}
  {
    assert s == s[..|s| - 1] + [s[|s| - 1]];
  }

  /** The concatenation of a list of lists. */
  function Flatten<T>(cs: seq<seq<T>>): seq<T> {
    if cs == [] then [] else cs[0] + Flatten(cs[1..])
  }

  /** `gaps[0] + pieces[0] + gaps[1] + ... + pieces[n - 1] + gaps[n]`: the
      pieces in order, with the gaps around and between them. */
  function Interleave<T>(gaps: seq<seq<T>>, pieces: seq<seq<T>>): seq<T>
    requires |gaps| == |pieces| + 1
    decreases |pieces|
  {
    if pieces == [] then gaps[0] else gaps[0] + pieces[0] + Interleave(gaps[1..], pieces[1..])
  }

  lemma InterleaveCons<T>(g: seq<T>, p: seq<T>, gaps: seq<seq<T>>, pieces: seq<seq<T>>)
    requires |gaps| == |pieces| + 1
    ensures Interleave([g] + gaps, [p] + pieces) == g + p + Interleave(gaps, pieces)
  {
    assert ([g] + gaps)[1..] == gaps && ([p] + pieces)[1..] == pieces;
  }
}
