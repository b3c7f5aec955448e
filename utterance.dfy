/** Utterances: chunks of speech kept in order of their items' beginnings,
    their speech rate, and the segmenter that cuts a stream of words and
    pauses at long runs of pauses. */
module Utterances {
  import opened Wrappers
  import opened Containers
  import opened Seqs

  /** The exceptions the utterance code raises: a `TypeError` from `float()`
      of a missing timestamp, the `ValueError`s for reversed and overlapping
      items, the `AttributeError` of an empty utterance's bounds (which
      `speech_rate` raises as a `ValueError` instead), the `ValueError` of
      `speech_rate` on an item without `syllables`, the
      `TypeError` of adding a missing syllable count, and the
      `ZeroDivisionError` of a zero duration. */
  datatype UttError =
    | MissingTimestamp
    | ReversedItem
    | OverlappingItems
    | EmptyUtterance
    | NoSyllables
    | NoTranscription
    | ZeroDuration

  // Ordering by beginning.

  predicate Begun(s: seq<Item>) {
    forall k :: 0 <= k < |s| ==> s[k].beg.Some?
  }

  /** The sort key `float(word.beg)`. */
  function Key(x: Item): real
    requires x.beg.Some?
  {
    x.beg.value
  }

  predicate SortedByBeg(s: seq<Item>)
    requires Begun(s)
  {
    forall k, l :: 0 <= k < l < |s| ==> Key(s[k]) <= Key(s[l])
  }

  /** Stable insertion: `x` goes after every item whose key is at most its
      own. */
  function Insert(s: seq<Item>, x: Item): (r: seq<Item>)
    requires Begun(s) && x.beg.Some?
    ensures |r| == |s| + 1 && Begun(r)
    ensures multiset(r) == multiset(s) + multiset{x}
  {
    if s == [] || Key(s[|s| - 1]) <= Key(x) then s + [x]
    else
      assert s == s[..|s| - 1] + [s[|s| - 1]];
      Insert(s[..|s| - 1], x) + [s[|s| - 1]]
  }

  /** `sorted(s, key=lambda word: float(word.beg))`, a stable sort, as
      insertion of each item in turn. */
  function SortByBeg(s: seq<Item>): (r: seq<Item>)
    requires Begun(s)
    ensures |r| == |s| && Begun(r)
  {
    if s == [] then [] else Insert(SortByBeg(s[..|s| - 1]), s[|s| - 1])
  }

  lemma {:induction false} InsertSorted(s: seq<Item>, x: Item)
    requires Begun(s) && x.beg.Some? && SortedByBeg(s)
    ensures SortedByBeg(Insert(s, x))
    decreases |s|
  {
    if s == [] || Key(s[|s| - 1]) <= Key(x) {
    } else {
      var init, last := s[..|s| - 1], s[|s| - 1];
      assert forall k :: 0 <= k < |init| ==> init[k] == s[k];
      InsertSorted(init, x);
      InsertBounded(init, x, Key(last));
      var q := Insert(init, x);
      var r := q + [last];
      assert Insert(s, x) == r;
      forall k, l | 0 <= k < l < |r| ensures Key(r[k]) <= Key(r[l]) {
        assert r[k] == q[k];
        if l < |q| {
          assert r[l] == q[l];
        }
      }
    }
  }

  /** Insertion keeps a bound that the item and the list keep. */
  lemma {:induction false} InsertBounded(s: seq<Item>, x: Item, b: real)
    requires Begun(s) && x.beg.Some? && Key(x) <= b
    requires forall k :: 0 <= k < |s| ==> Key(s[k]) <= b
    ensures forall k :: 0 <= k < |Insert(s, x)| ==> Key(Insert(s, x)[k]) <= b
    decreases |s|
  {
    if s == [] || Key(s[|s| - 1]) <= Key(x) {
      var r := s + [x];
      forall k | 0 <= k < |r| ensures Key(r[k]) <= b {
        if k < |s| {
          assert r[k] == s[k];
        }
      }
    } else {
      var init := s[..|s| - 1];
      assert forall k :: 0 <= k < |init| ==> init[k] == s[k];
      InsertBounded(init, x, b);
      var q := Insert(init, x);
      var r := q + [s[|s| - 1]];
      assert Insert(s, x) == r;
      forall k | 0 <= k < |r| ensures Key(r[k]) <= b {
        if k < |q| {
          assert r[k] == q[k];
        }
      }
    }
  }

  /** The sorted list holds exactly the items it was given. */
  lemma {:induction false} SortByBegPermutes(s: seq<Item>)
    requires Begun(s)
    ensures multiset(SortByBeg(s)) == multiset(s)
    decreases |s|
  {
    if s != [] {
      var init, last := s[..|s| - 1], s[|s| - 1];
      BegunInit(s);
      SortByBegPermutes(init);
      assert SortByBeg(s) == Insert(SortByBeg(init), last);
      MultisetSnoc(s);
    }
  }

  lemma BegunInit(s: seq<Item>)
    requires Begun(s) && s != []
    ensures Begun(s[..|s| - 1])
  {
    var init := s[..|s| - 1];
    forall k | 0 <= k < |init| ensures init[k].beg.Some? {
      assert init[k] == s[k];
    }
  }

  /** The sorted list is in order of beginnings. */
  lemma {:induction false} SortByBegSorts(s: seq<Item>)
    requires Begun(s)
    ensures SortedByBeg(SortByBeg(s))
    decreases |s|
  {
    if s != [] {
      SortByBegSorts(s[..|s| - 1]);
      InsertSorted(SortByBeg(s[..|s| - 1]), s[|s| - 1]);
    }
  }

  /** A list already in order comes out as it went in. */
  lemma {:induction false} SortByBegKeepsOrdered(s: seq<Item>)
    requires Begun(s) && SortedByBeg(s)
    ensures SortByBeg(s) == s
    decreases |s|
  {
    if s != [] {
      var init, last := s[..|s| - 1], s[|s| - 1];
      SortedInit(s);
      SortByBegKeepsOrdered(init);
      assert SortByBeg(s) == Insert(init, last);
      assert Insert(init, last) == init + [last] == s;
    }
  }

  /** The items that begin at time `k`. */
  function BeginsAt(k: real): Item -> bool {
    (y: Item) => y.beg == Some(k)
  }

  /** Insertion keeps the order of the items that begin at any one time:
      `x` goes after every item that begins when it does. */
  lemma {:induction false} InsertKeepsTies(s: seq<Item>, x: Item, k: real)
    requires Begun(s) && x.beg.Some?
    ensures Filter(Insert(s, x), BeginsAt(k)) == Filter(s, BeginsAt(k)) + (if x.beg == Some(k) then [x] else [])
    decreases |s|
  {
    var p := BeginsAt(k);
    if s == [] || Key(s[|s| - 1]) <= Key(x) {
      FilterSnoc(s, x, p);
    } else {
      var init, last := s[..|s| - 1], s[|s| - 1];
      assert s == init + [last];
      assert Begun(init) by {
        forall j | 0 <= j < |init| ensures init[j] == s[j] {}
      }
      InsertKeepsTies(init, x, k);
      var q := Insert(init, x);
      assert Insert(s, x) == q + [last];
      FilterSnoc(q, last, p);
      FilterSnoc(init, last, p);
      var tx := if p(x) then [x] else [];
      var tl := if p(last) then [last] else [];
      assert tx == if x.beg == Some(k) then [x] else [];
      // `last` begins after `x`, so at most one of them begins at `k`.
      assert tx == [] || tl == [];
      SwapEmpty(Filter(init, p), tx, tl);
      assert Filter(Insert(s, x), p) == Filter(init, p) + tx + tl;
    }
  }

  /** `sorted` is stable: the items that begin at any one time come out in
      the order they went in. */
  lemma {:induction false} SortByBegStable(s: seq<Item>, k: real)
    requires Begun(s)
    ensures Filter(SortByBeg(s), BeginsAt(k)) == Filter(s, BeginsAt(k))
    decreases |s|
  {
    if s != [] {
      var init, last := s[..|s| - 1], s[|s| - 1];
      assert Begun(init) by {
        forall j | 0 <= j < |init| ensures init[j] == s[j] {}
      }
      SortByBegStable(init, k);
      InsertKeepsTies(SortByBeg(init), last, k);
      assert Filter(s, BeginsAt(k)) == Filter(init, BeginsAt(k)) + (if last.beg == Some(k) then [last] else []);
    }
  }

  /** Dropping the last item of an ordered list leaves an ordered list of
      items that begin no later than it. */
  lemma SortedInit(s: seq<Item>)
    requires Begun(s) && SortedByBeg(s) && s != []
    ensures var init := s[..|s| - 1];
      && Begun(init) && SortedByBeg(init)
      && (init != [] ==> Key(init[|init| - 1]) <= Key(s[|s| - 1]))
  {
    var init := s[..|s| - 1];
    forall k | 0 <= k < |init| ensures init[k] == s[k] {}
  }

  /** Appending an item to an ordered list and sorting again puts it last
      when no item begins after it. */
  lemma AppendLatest(s: seq<Item>, x: Item)
    requires Begun(s) && x.beg.Some? && SortedByBeg(s)
    requires forall k :: 0 <= k < |s| ==> Key(s[k]) <= Key(x)
    ensures Begun(s + [x]) && SortByBeg(s + [x]) == s + [x]
  {
    SortByBegSnoc(s, x);
    SortByBegKeepsOrdered(s);
    if s != [] {
      assert Key(s[|s| - 1]) <= Key(x);
    }
  }

  /** Sorting a list with one more item inserts that item into the sorted
      list. */
  lemma SortByBegSnoc(s: seq<Item>, x: Item)
    requires Begun(s) && x.beg.Some?
    ensures Begun(s + [x]) && SortByBeg(s + [x]) == Insert(SortByBeg(s), x)
  {
    var t := s + [x];
    assert Begun(t) by {
      forall k | 0 <= k < |t| ensures t[k].beg.Some? {
        if k < |s| {
          assert t[k] == s[k];
        }
      }
    }
    assert t[..|t| - 1] == s && t[|t| - 1] == x;
  }

  // Validation on construction.

  /** Every item has both timestamps and does not end before it begins. */
  predicate Forward(s: seq<Item>) {
    forall k :: 0 <= k < |s| ==> s[k].Timed() && s[k].beg.value <= s[k].end.value
  }

  /** No item ends after the next one begins. */
  predicate Disjoint(s: seq<Item>)
    requires Forward(s)
  {
    forall k {:trigger s[k].beg} :: 0 < k < |s| ==> s[k - 1].end.value <= s[k].beg.value
  }

  /** The `for word in words` scan for a missing end or `beg > end`, which
      stops at the first offending item. */
  function FirstReversal(s: seq<Item>): (e: Option<UttError>)
    requires Begun(s)
    ensures e.None? <==> Forward(s)
    ensures e == None || e == Some(MissingTimestamp) || e == Some(ReversedItem)
    ensures e == Some(MissingTimestamp) ==> exists k :: 0 <= k < |s| && s[k].end.None?
    ensures e == Some(ReversedItem) ==> exists k :: 0 <= k < |s| && s[k].end.Some? && s[k].beg.value > s[k].end.value
  {
    if s == [] then None
    else if s[0].end.None? then Some(MissingTimestamp)
    else if s[0].beg.value > s[0].end.value then Some(ReversedItem)
    else
      var e := FirstReversal(s[1..]);
      assert forall k :: 1 <= k < |s| ==> s[k] == s[1..][k - 1];
      e
  }

  /** `__init__(words)`: sort by beginning, then reject missing timestamps,
      reversed items and adjacent items that overlap. */
  function Build(items: seq<Item>): (r: Result<seq<Item>, UttError>)
    ensures r.Success? ==>
      && Begun(items) && r.value == SortByBeg(items)
      && Forward(r.value) && Disjoint(r.value)
    ensures r.Failure? ==>
      || (r.error == MissingTimestamp && exists x :: x in items && !x.Timed())
      || (r.error == ReversedItem && exists x :: x in items && x.Timed() && x.beg.value > x.end.value)
      || (r.error == OverlappingItems && Begun(items) && Forward(SortByBeg(items)) && !Disjoint(SortByBeg(items)))
  {
    if !Begun(items) then
      assert exists x :: x in items && !x.Timed() by {
        var k :| 0 <= k < |items| && items[k].beg.None?;
        assert items[k] in items;
      }
      Failure(MissingTimestamp)
    else
      var s := SortByBeg(items);
      SortByBegPermutes(items);
      match FirstReversal(s)
      case Some(e) =>
        MemberOfSorted(items, s);
        Failure(e)
      case None =>
        if Disjoint(s) then Success(s) else Failure(OverlappingItems)
  }

  lemma MemberOfSorted(items: seq<Item>, s: seq<Item>)
    requires multiset(s) == multiset(items)
    ensures forall k :: 0 <= k < |s| ==> s[k] in items
  {
    forall k | 0 <= k < |s| ensures s[k] in items {
      assert s[k] in multiset(s);
    }
  }

  /** Construction succeeds exactly on lists whose items are all timed and
      forward and whose sorted order has no overlapping neighbours; the
      utterance then holds the items in order of beginnings. */
  lemma BuildSucceeds(items: seq<Item>)
    ensures Build(items).Success? <==> Begun(items) && Forward(SortByBeg(items)) && Disjoint(SortByBeg(items))
    ensures Build(items).Success? ==>
      multiset(Build(items).value) == multiset(items) && SortedByBeg(Build(items).value)
  {
    if Begun(items) {
      SortByBegPermutes(items);
      SortByBegSorts(items);
    }
  }

  /** A list given in reverse chronological order is stored chronologically. */
  lemma BuildReversesBackwards(a: Item, b: Item)
    requires a.Timed() && b.Timed()
    requires a.beg.value < b.beg.value && a.beg.value <= a.end.value <= b.beg.value <= b.end.value
    ensures Build([b, a]) == Success([a, b])
  {
    assert [b, a][..1] == [b];
    assert SortByBeg([b]) == [b];
    assert [b][..0] == [];
    assert Insert([b], a) == [a, b];
    assert SortByBeg([b, a]) == [a, b];
    assert Forward([a, b]) && Disjoint([a, b]);
  }

  /** Two items that only touch are accepted; two that overlap are not. */
  lemma BuildTouching(a: Item, b: Item)
    requires a.Timed() && b.Timed()
    requires a.beg.value <= a.end.value && b.beg.value <= b.end.value && a.beg.value <= b.beg.value
    ensures Build([a, b]).Success? <==> a.end.value <= b.beg.value
  {
    assert [a, b][..1] == [a] && [a][..0] == [];
    assert SortByBeg([a]) == [a];
    assert Insert([a], b) == [a, b];
    assert SortByBeg([a, b]) == [a, b];
    assert Forward([a, b]);
    assert Disjoint([a, b]) <==> a.end.value <= b.beg.value;
  }

  // Speech rate.

  /** What one item adds to `syllable_count`: a word its syllables (a
      missing transcription makes the addition fail), any other item zero
      when missing syllables are ignored and an error otherwise. */
  function Contribution(x: Item, usePhonetic: bool, ignoreMissing: bool): (r: Result<nat, UttError>)
    ensures r.Failure? <==> (x.Word? && x.Syllables(usePhonetic).None?) || (x.Pause? && !ignoreMissing)
    ensures r.Success? ==> r.value == (if x.Word? then x.Syllables(usePhonetic).value else 0)
  {
    if x.Word? then
      match x.Syllables(usePhonetic)
      case None => Failure(NoTranscription)
      case Some(n) => Success(n)
    else if ignoreMissing then Success(0)
    else Failure(NoSyllables)
  }

  /** The syllable count of `ws` taken left to right, failing at the first
      item that cannot contribute. */
  function Tally(ws: seq<Item>, usePhonetic: bool, ignoreMissing: bool): Result<nat, UttError>
    decreases |ws|
  {
    if ws == [] then Success(0)
    else
      match Contribution(ws[0], usePhonetic, ignoreMissing)
      case Failure(e) => Failure(e)
      case Success(n) => Plus(Tally(ws[1..], usePhonetic, ignoreMissing), n)
  }

  /** The tally fails exactly when some item cannot contribute, and then
      with the error of the first such item. */
  lemma {:induction false} TallyFailsAtFirst(ws: seq<Item>, usePhonetic: bool, ignoreMissing: bool)
    ensures Tally(ws, usePhonetic, ignoreMissing).Success? <==>
      forall k :: 0 <= k < |ws| ==> Contribution(ws[k], usePhonetic, ignoreMissing).Success?
    ensures Tally(ws, usePhonetic, ignoreMissing).Failure? ==>
      (exists k :: 0 <= k < |ws| && Contribution(ws[k], usePhonetic, ignoreMissing) == Failure(Tally(ws, usePhonetic, ignoreMissing).error)
         && forall m :: 0 <= m < k ==> Contribution(ws[m], usePhonetic, ignoreMissing).Success?)
    decreases |ws|
  {
    if ws != [] {
      var t := Tally(ws, usePhonetic, ignoreMissing);
      TallyFailsAtFirst(ws[1..], usePhonetic, ignoreMissing);
      assert forall k :: 1 <= k < |ws| ==> ws[k] == ws[1..][k - 1];
      match Contribution(ws[0], usePhonetic, ignoreMissing)
      case Failure(e) =>
        assert Contribution(ws[0], usePhonetic, ignoreMissing) == Failure(t.error);
      case Success(n) =>
        var rest := Tally(ws[1..], usePhonetic, ignoreMissing);
        if rest.Failure? {
          var k :| 0 <= k < |ws[1..]| && Contribution(ws[1..][k], usePhonetic, ignoreMissing) == Failure(rest.error)
            && forall m :: 0 <= m < k ==> Contribution(ws[1..][m], usePhonetic, ignoreMissing).Success?;
          assert Contribution(ws[k + 1], usePhonetic, ignoreMissing) == Failure(t.error);
        }
    }
  }

  /** One step of the left-to-right tally: the item either fails the whole
      tally or adds its syllables to the running count. */
  lemma TallyStep(ws: seq<Item>, i: nat, count: nat, usePhonetic: bool, ignoreMissing: bool)
    requires i < |ws|
    requires Tally(ws, usePhonetic, ignoreMissing) == Plus(Tally(ws[i..], usePhonetic, ignoreMissing), count)
    ensures match Contribution(ws[i], usePhonetic, ignoreMissing)
      case Failure(e) => Tally(ws, usePhonetic, ignoreMissing) == Failure(e)
      case Success(n) => Tally(ws, usePhonetic, ignoreMissing) == Plus(Tally(ws[i + 1..], usePhonetic, ignoreMissing), count + n)
  {
    var rest := ws[i..];
    assert rest[0] == ws[i] && rest[1..] == ws[i + 1..];
    match Contribution(ws[i], usePhonetic, ignoreMissing)
    case Failure(e) =>
      assert Tally(rest, usePhonetic, ignoreMissing) == Failure(e);
    case Success(n) =>
      var later := Tally(ws[i + 1..], usePhonetic, ignoreMissing);
      assert Tally(rest, usePhonetic, ignoreMissing) == Plus(later, n);
      assert Plus(Plus(later, n), count) == Plus(later, count + n);
  }

  /** `count` added to a tally that succeeds. */
  function Plus(t: Result<nat, UttError>, count: nat): Result<nat, UttError> {
    match t
    case Success(n) => Success(n + count)
    case Failure(e) => Failure(e)
  }

  /** With missing syllables ignored, the tally is that of the words alone:
      every other item counts zero. */
  lemma {:induction false} TallyIgnoringPauses(ws: seq<Item>, usePhonetic: bool)
    ensures Tally(ws, usePhonetic, true) == Tally(Filter(ws, IsWord), usePhonetic, false)
    decreases |ws|
  {
    if ws != [] {
      TallyIgnoringPauses(ws[1..], usePhonetic);
      assert ws == [ws[0]] + ws[1..];
      FilterCons(ws[0], ws[1..], IsWord);
      var f := Filter(ws, IsWord);
      if ws[0].Word? {
        assert f == [ws[0]] + Filter(ws[1..], IsWord);
        assert f[0] == ws[0] && f[1..] == Filter(ws[1..], IsWord);
      } else {
        assert f == Filter(ws[1..], IsWord);
      }
    }
  }

  predicate IsWord(x: Item) {
    x.Word?
  }

  /** The syllables of two stretches add up. */
  lemma {:induction false} TallySplits(a: seq<Item>, b: seq<Item>, usePhonetic: bool, ignoreMissing: bool)
    requires Tally(a, usePhonetic, ignoreMissing).Success? && Tally(b, usePhonetic, ignoreMissing).Success?
    ensures Tally(a + b, usePhonetic, ignoreMissing)
      == Success(Tally(a, usePhonetic, ignoreMissing).value + Tally(b, usePhonetic, ignoreMissing).value)
    decreases |a|
  {
    if a == [] {
      assert a + b == b;
    } else {
      var ab := a + b;
      assert ab[0] == a[0] && ab[1..] == a[1..] + b;
      var c := Contribution(a[0], usePhonetic, ignoreMissing);
      assert c.Success? && Tally(a, usePhonetic, ignoreMissing) == Plus(Tally(a[1..], usePhonetic, ignoreMissing), c.value);
      TallySplits(a[1..], b, usePhonetic, ignoreMissing);
      assert Tally(ab, usePhonetic, ignoreMissing) == Plus(Tally(a[1..] + b, usePhonetic, ignoreMissing), c.value);
    }
  }

  /** The `for word in self._words` loop of `speech_rate`. */
  method CountSyllables(ws: seq<Item>, usePhonetic: bool, ignoreMissing: bool) returns (r: Result<nat, UttError>)
    ensures r == Tally(ws, usePhonetic, ignoreMissing)
  {
    var count: nat := 0;
    var i := 0;
    while i < |ws|
      invariant 0 <= i <= |ws|
      invariant Tally(ws, usePhonetic, ignoreMissing) == Plus(Tally(ws[i..], usePhonetic, ignoreMissing), count)
    {
      TallyStep(ws, i, count, usePhonetic, ignoreMissing);
      var w := ws[i];
      if w.Word? {
        var n := w.Syllables(usePhonetic);
        if n.None? {
          return Failure(NoTranscription);
        }
        count := count + n.value;
      } else if !ignoreMissing {
        return Failure(NoSyllables);
      }
      i := i + 1;
    }
    return Success(count);
  }

  // The container.

  /** Why `append` refuses an item, if it does: missing timestamps, a
      reversed item, or an item of the utterance that begins inside
      `(item.beg, item.end]`. */
  function Refusal(words: seq<Item>, item: Item): (r: Option<UttError>)
    ensures r.None? <==>
      && item.Timed() && item.beg.value <= item.end.value
      && forall k :: 0 <= k < |words| && words[k].beg.Some? ==> !(item.beg.value < words[k].beg.value <= item.end.value)
    ensures r == Some(MissingTimestamp) <==> !item.Timed()
    ensures r == Some(ReversedItem) <==> item.Timed() && item.beg.value > item.end.value
  {
    if !item.Timed() then Some(MissingTimestamp)
    else if item.beg.value > item.end.value then Some(ReversedItem)
    else if exists k :: 0 <= k < |words| && words[k].beg.Some? && item.beg.value < words[k].beg.value <= item.end.value
    then Some(OverlappingItems)
    else None
  }

  /** A prefix of a timed, forward list in order of beginnings is one too. */
  lemma ValidPrefix(s: seq<Item>, n: nat)
    requires Forward(s) && SortedByBeg(s) && n <= |s|
    ensures Forward(s[..n]) && SortedByBeg(s[..n])
  {
    var p := s[..n];
    assert forall k :: 0 <= k < |p| ==> p[k] == s[k];
  }

  class Utterance {
    var words: seq<Item>

    /** Every item is timed and forward, and the list is in order of
        beginnings. */
    ghost predicate Valid()
      reads this
    {
      Forward(words) && SortedByBeg(words)
    }

    /** `Utterance()`: no items. */
    constructor Empty()
      ensures Valid() && words == []
    {
      words := [];
    }

    /** `Utterance(words)`: the validated, sorted list, or the exception
        construction raises. */
    static method FromItems(items: seq<Item>) returns (r: Result<Utterance, UttError>)
      ensures r.Success? <==> Build(items).Success?
      ensures r.Success? ==> fresh(r.value) && r.value.Valid() && r.value.words == Build(items).value
      ensures r.Failure? ==> r.error == Build(items).error
    {
      var b := Build(items);
      if b.Failure? {
        return Failure(b.error);
      }
      BuildSucceeds(items);
      var u := new Utterance.Empty();
      u.words := b.value;
      r := Success(u);
    }

    /** The `beg` property: the first item's beginning. */
    function Beg(): (r: Result<real, UttError>)
      reads this
      requires Valid()
      ensures r.Failure? <==> words == []
      ensures r.Failure? ==> r.error == EmptyUtterance
      ensures r.Success? ==> r.value == words[0].beg.value
      ensures r.Success? ==> forall k :: 0 <= k < |words| ==> r.value <= words[k].beg.value
    {
      if words == [] then Failure(EmptyUtterance) else Success(words[0].beg.value)
    }

    /** The `end` property: the last item's end. */
    function End(): (r: Result<real, UttError>)
      reads this
      requires Valid()
      ensures r.Failure? <==> words == []
      ensures r.Failure? ==> r.error == EmptyUtterance
      ensures r.Success? ==> r.value == words[|words| - 1].end.value
    {
      if words == [] then Failure(EmptyUtterance) else Success(words[|words| - 1].end.value)
    }

    /** The `dur` property: from the first beginning to the last end, never
        negative. */
    function Dur(): (r: Result<real, UttError>)
      reads this
      requires Valid()
      ensures r.Failure? <==> words == []
      ensures r.Failure? ==> r.error == EmptyUtterance
      ensures r.Success? ==> r.value == End().value - Beg().value && r.value >= 0.0
    {
      if words == [] then Failure(EmptyUtterance)
      else
        assert Key(words[0]) <= Key(words[|words| - 1]);
        Success(words[|words| - 1].end.value - words[0].beg.value)
    }

    /** `__len__`. */
    function Length(): (n: nat)
      reads this
      ensures n == |words|
    {
      |words|
    }

    /** `speech_rate(use_phonetic, ignore_missing_syllables)`: syllables per
        second over the utterance.  Fails on an empty utterance, at the
        first item that cannot contribute syllables, and on a zero
        duration. */
    method SpeechRate(usePhonetic: bool, ignoreMissing: bool) returns (r: Result<real, UttError>)
      requires Valid()
      ensures words == [] ==> r == Failure(EmptyUtterance)
      ensures words != [] && Tally(words, usePhonetic, ignoreMissing).Failure? ==>
        r == Failure(Tally(words, usePhonetic, ignoreMissing).error)
      ensures words != [] && Tally(words, usePhonetic, ignoreMissing).Success? ==>
        if Dur().value == 0.0 then r == Failure(ZeroDuration)
        else r == Success(Tally(words, usePhonetic, ignoreMissing).value as real / Dur().value)
    {
      if words == [] {
        return Failure(EmptyUtterance);
      }
      var tally := CountSyllables(words, usePhonetic, ignoreMissing);
      if tally.Failure? {
        return Failure(tally.error);
      }
      var count := tally.value;
      var dur := words[|words| - 1].end.value - words[0].beg.value;
      if dur == 0.0 {
        return Failure(ZeroDuration);
      }
      r := Success(count as real / dur);
    }

    /** `utt._words = utt._words[:-count]`, as the segmenter drops the
        pauses that end an utterance: what is left stays valid. */
    method Truncate(count: nat)
      requires Valid() && 0 < count <= |words|
      modifies this
      ensures Valid() && words == old(words)[..|old(words)| - count]
    {
      ValidPrefix(words, |words| - count);
      words := words[..|words| - count];
    }

    /** `append(item)`: refuses the item as `Refusal` says, and otherwise
        adds it and sorts the items by beginning again.  An item that begins
        inside an existing one is accepted. */
    method Append(item: Item) returns (err: Option<UttError>)
      requires Valid()
      modifies this
      ensures Valid()
      ensures err == Refusal(old(words), item)
      ensures err.Some? ==> words == old(words)
      ensures err.None? ==>
        && Begun(old(words) + [item]) && words == SortByBeg(old(words) + [item])
        && multiset(words) == multiset(old(words)) + multiset{item}
    {
      if item.beg.None? || item.end.None? {
        return Some(MissingTimestamp);
      }
      var beg := item.beg.value;
      var end := item.end.value;
      if beg > end {
        return Some(ReversedItem);
      }
      var i := 0;
      while i < |words|
        invariant 0 <= i <= |words|
        invariant forall k :: 0 <= k < i ==> !(beg < words[k].beg.value <= end)
      {
        if words[i].beg.value > beg && words[i].beg.value <= end {
          return Some(OverlappingItems);
        }
        i := i + 1;
      }
      var extended := words + [item];
      SortByBegPermutes(extended);
      SortByBegSorts(extended);
      words := SortByBeg(extended);
      ForwardPermutation(extended, words);
      return None;
    }
  }

  lemma ForwardPermutation(s: seq<Item>, t: seq<Item>)
    requires Forward(s) && multiset(s) == multiset(t)
    ensures Forward(t)
  {
    forall k | 0 <= k < |t| ensures t[k].Timed() && t[k].beg.value <= t[k].end.value {
      assert t[k] in multiset(t);
      assert t[k] in multiset(s);
      var j :| 0 <= j < |s| && s[j] == t[k];
    }
  }

  // The segmenter.

  /** How many pauses end `s`: the `pause_count` of a chunk. */
  function RunLen(s: seq<Item>): (n: nat)
    ensures n <= |s|
    ensures forall k :: |s| - n <= k < |s| ==> s[k].Pause?
    ensures n < |s| ==> !s[|s| - 1 - n].Pause?
  {
    if s == [] || !s[|s| - 1].Pause? then 0 else RunLen(s[..|s| - 1]) + 1
  }

  /** The summed duration of the pauses that end `s`: the `pause_duration`
      of a chunk that ends in a pause. */
  function RunSum(s: seq<Item>): real {
    if s == [] || !s[|s| - 1].Pause? then 0.0 else RunSum(s[..|s| - 1]) + s[|s| - 1].Dur().GetOr(0.0)
  }

  /** The segmenter splits after the prefix `p` of a chunk: always when `sep`
      is not positive (the reset `pause_duration` of 0.0 already reaches
      it), and otherwise when `p` ends in a run of pauses lasting at least
      `sep`. */
  predicate Cuts(p: seq<Item>, sep: real) {
    sep <= 0.0 || (p != [] && p[|p| - 1].Pause? && RunSum(p) >= sep)
  }

  /** The length of the first chunk of `t`, searching from length `j`: the
      shortest prefix after which the segmenter splits, or all of `t`. */
  function CutAt(t: seq<Item>, sep: real, j: nat): (n: nat)
    requires 1 <= j <= |t|
    ensures j <= n <= |t|
    ensures n == |t| || Cuts(t[..n], sep)
    ensures forall m {:trigger Cuts(t[..m], sep)} :: j <= m < n ==> !Cuts(t[..m], sep)
    decreases |t| - j
  {
    if j == |t| || Cuts(t[..j], sep) then j else CutAt(t, sep, j + 1)
  }

  /** `s` without its leading pauses. */
  function DropLeadingPauses(s: seq<Item>): (r: seq<Item>)
    ensures |r| <= |s|
    ensures r == [] || !r[0].Pause?
    ensures forall k :: 0 <= k < |s| - |r| ==> s[k].Pause?
  {
    if s == [] || !s[0].Pause? then s else DropLeadingPauses(s[1..])
  }

  /** What is left once leading pauses are dropped is a suffix. */
  lemma {:induction false} LeadingSuffix(s: seq<Item>)
    ensures DropLeadingPauses(s) == s[|s| - |DropLeadingPauses(s)|..]
    decreases |s|
  {
    if s != [] && s[0].Pause? {
      LeadingSuffix(s[1..]);
      assert s[1..][|s[1..]| - |DropLeadingPauses(s[1..])|..] == s[|s| - |DropLeadingPauses(s[1..])|..];
    }
  }

  /** `s` without its trailing pauses: `s[:-pause_count]`. */
  function DropTrailingPauses(s: seq<Item>): (r: seq<Item>) {
    s[..|s| - RunLen(s)]
  }

  /** The chunks of `s` before trailing pauses are removed: when stripping,
      leading pauses are skipped first; then a chunk runs to the shortest
      prefix after which the segmenter splits, and the rest of the stream
      is segmented the same way. */
  function Chunks(s: seq<Item>, sep: real, strip: bool): seq<seq<Item>>
    decreases |s|
  {
    var t := if strip then DropLeadingPauses(s) else s;
    if t == [] then []
    else
      var n := CutAt(t, sep, 1);
      [t[..n]] + Chunks(t[n..], sep, strip)
  }

  /** What the segmenter yields for a chunk. */
  function Yielded(c: seq<Item>, strip: bool): seq<Item> {
    if strip then DropTrailingPauses(c) else c
  }

  function YieldedAll(cs: seq<seq<Item>>, strip: bool): (r: seq<seq<Item>>)
    ensures |r| == |cs| && forall k :: 0 <= k < |cs| ==> r[k] == Yielded(cs[k], strip)
  {
    seq(|cs|, k requires 0 <= k < |cs| => Yielded(cs[k], strip))
  }

  /** The utterances `words_to_utterances` yields, as lists of items. */
  function Segments(s: seq<Item>, sep: real, strip: bool): seq<seq<Item>> {
    YieldedAll(Chunks(s, sep, strip), strip)
  }

  /** The input the segmenter is built for: timed, forward items in order of
      beginnings, so that no `append` fails. */
  predicate Chronological(s: seq<Item>) {
    && Forward(s)
    && forall k, l {:trigger Key(s[k]), Key(s[l])} :: 0 <= k < l < |s| ==> Key(s[k]) <= Key(s[l])
  }

  /** No proper prefix of `c` is a place where the segmenter splits. */
  predicate NoEarlyCut(c: seq<Item>, sep: real) {
    forall m {:trigger Cuts(c[..m], sep)} :: 1 <= m < |c| ==> !Cuts(c[..m], sep)
  }

  /** Every chunk is non-empty and splits nowhere before its end, every one
      but the last ends where the segmenter splits, and when stripping every
      chunk starts with a word. */
  predicate WellChunked(cs: seq<seq<Item>>, sep: real, strip: bool) {
    forall i :: 0 <= i < |cs| ==>
      && cs[i] != [] && NoEarlyCut(cs[i], sep)
      && (strip ==> !cs[i][0].Pause?)
      && (i < |cs| - 1 ==> Cuts(cs[i], sep))
  }

  /** `Chunks` seen one chunk at a time. */
  lemma ChunksFront(s: seq<Item>, sep: real, strip: bool)
    ensures var t := if strip then DropLeadingPauses(s) else s;
      && (t == [] ==> Chunks(s, sep, strip) == [])
      && (t != [] ==> Chunks(s, sep, strip) == [t[..CutAt(t, sep, 1)]] + Chunks(t[CutAt(t, sep, 1)..], sep, strip))
  {
  }

  lemma {:induction false} ChunksShape(s: seq<Item>, sep: real, strip: bool)
    ensures WellChunked(Chunks(s, sep, strip), sep, strip)
    decreases |s|
  {
    var t := if strip then DropLeadingPauses(s) else s;
    ChunksFront(s, sep, strip);
    if t != [] {
      var n := CutAt(t, sep, 1);
      FirstChunk(t, sep);
      ChunksShape(t[n..], sep, strip);
      if n == |t| {
        assert t[n..] == [];
        ChunksFront(t[n..], sep, strip);
      }
      WellChunkedCons(t[..n], Chunks(t[n..], sep, strip), sep, strip);
    }
  }

  /** The first chunk of a non-empty stream. */
  lemma FirstChunk(t: seq<Item>, sep: real)
    requires t != []
    ensures var n := CutAt(t, sep, 1);
      t[..n] != [] && NoEarlyCut(t[..n], sep) && (n < |t| ==> Cuts(t[..n], sep))
  {
    var n := CutAt(t, sep, 1);
    var c := t[..n];
    forall m | 1 <= m < |c| ensures !Cuts(c[..m], sep) {
      assert c[..m] == t[..m];
    }
  }

  lemma WellChunkedCons(c: seq<Item>, rest: seq<seq<Item>>, sep: real, strip: bool)
    requires c != [] && NoEarlyCut(c, sep) && (strip ==> !c[0].Pause?)
    requires rest != [] ==> Cuts(c, sep)
    requires WellChunked(rest, sep, strip)
    ensures WellChunked([c] + rest, sep, strip)
  {
    var cs := [c] + rest;
    forall i | 1 <= i < |cs| ensures cs[i] == rest[i - 1] {}
  }

  /** Without stripping, the chunks are the input cut into pieces. */
  lemma {:induction false} ChunksCover(s: seq<Item>, sep: real)
    ensures Flatten(Chunks(s, sep, false)) == s
    decreases |s|
  {
    ChunksFront(s, sep, false);
    if s != [] {
      var n := CutAt(s, sep, 1);
      ChunksCover(s[n..], sep);
      FlattenCons(s[..n], Chunks(s[n..], sep, false));
      SplitAt(s, n);
    }
  }

  /** With stripping, the chunks keep every word of the input, in order, and
      drop only pauses. */
  lemma {:induction false} ChunksKeepWords(s: seq<Item>, sep: real)
    ensures Filter(Flatten(Chunks(s, sep, true)), IsWord) == Filter(s, IsWord)
    decreases |s|
  {
    var t := DropLeadingPauses(s);
    LeadingPausesHoldNoWord(s);
    ChunksFront(s, sep, true);
    if t != [] {
      var n := CutAt(t, sep, 1);
      var c := t[..n];
      var tail := t[n..];
      var rest := Chunks(tail, sep, true);
      ChunksKeepWords(tail, sep);
      FlattenCons(c, rest);
      SplitAt(t, n);
      FilterRejoin(t, c, tail, Flatten(rest), IsWord);
    }
  }

  /** Every item of `s` is a pause. */
  predicate AllPauses(s: seq<Item>) {
    forall k :: 0 <= k < |s| ==> s[k].Pause?
  }

  /** Every item of every gap is a pause. */
  predicate PausesOnly(gs: seq<seq<Item>>) {
    forall i :: 0 <= i < |gs| ==> AllPauses(gs[i])
  }

  /** The pauses the segmenter strips when it also strips leading pauses:
      `pre`, the pauses that ended the chunk before, joined to the leading
      pauses of `s`, then the same for each later chunk. */
  function StrippedGaps(s: seq<Item>, sep: real, pre: seq<Item>): seq<seq<Item>>
    decreases |s|
  {
    var t := DropLeadingPauses(s);
    var lead := pre + s[..|s| - |t|];
    if t == [] then [lead]
    else
      var c := t[..CutAt(t, sep, 1)];
      [lead] + StrippedGaps(t[CutAt(t, sep, 1)..], sep, c[|c| - RunLen(c)..])
  }

  /** `StrippedGaps` seen one gap at a time. */
  lemma StrippedGapsFront(s: seq<Item>, sep: real, pre: seq<Item>)
    ensures var t := DropLeadingPauses(s); var lead := pre + s[..|s| - |t|];
      && (t == [] ==> StrippedGaps(s, sep, pre) == [lead])
      && (t != [] ==> var n := CutAt(t, sep, 1); var c := t[..n];
            StrippedGaps(s, sep, pre) == [lead] + StrippedGaps(t[n..], sep, c[|c| - RunLen(c)..]))
  {
  }

  /** `s` is the pauses before its first word followed by the rest. */
  lemma LeadSplit(s: seq<Item>, pre: seq<Item>)
    ensures var t := DropLeadingPauses(s); pre + s == (pre + s[..|s| - |t|]) + t
  {
    var t := DropLeadingPauses(s);
    var head := s[..|s| - |t|];
    LeadingSuffix(s);
    assert s == head + t;
    Rejoined(pre, head, t);
  }

  /** The pauses before `s`'s first word, joined to pauses `pre`, are
      pauses. */
  lemma LeadIsPauses(s: seq<Item>, pre: seq<Item>)
    requires AllPauses(pre)
    ensures var t := DropLeadingPauses(s); AllPauses(pre + s[..|s| - |t|])
  {
    var t := DropLeadingPauses(s);
    var head := s[..|s| - |t|];
    forall k | 0 <= k < |head| ensures head[k].Pause? {
      assert head[k] == s[k];
    }
    PausesJoin(pre, head);
  }

  lemma PausesJoin(a: seq<Item>, b: seq<Item>)
    requires AllPauses(a) && AllPauses(b)
    ensures AllPauses(a + b)
  {
    forall k | 0 <= k < |a + b| ensures (a + b)[k].Pause? {
      if k >= |a| {
        assert (a + b)[k] == b[k - |a|];
      }
    }
  }

  /** What is stripped from the end of a chunk is pauses. */
  lemma TrailIsPauses(c: seq<Item>)
    ensures AllPauses(c[|c| - RunLen(c)..])
  {
    var m := |c| - RunLen(c);
    var trail := c[m..];
    forall k | 0 <= k < |trail| ensures trail[k].Pause? {
      assert trail[k] == c[m + k];
    }
  }

  /** One more gap of pauses in front of gaps of pauses. */
  lemma GapsCons(lead: seq<Item>, g: seq<seq<Item>>, h: seq<seq<Item>>)
    requires AllPauses(lead) && PausesOnly(g) && h == [lead] + g
    ensures PausesOnly(h)
  {
    forall i | 0 <= i < |h| ensures AllPauses(h[i]) {
      if i > 0 {
        assert h[i] == g[i - 1];
      }
    }
  }

  /** `pre + s` regrouped around the first chunk of `t`. */
  lemma Regrouped(pre: seq<Item>, s: seq<Item>, lead: seq<Item>, t: seq<Item>, n: nat, m: nat)
    requires pre + s == lead + t && m <= n <= |t|
    ensures pre + s == lead + t[..n][..m] + (t[..n][m..] + t[n..])
  {
    assert t == t[..n][..m] + t[..n][m..] + t[n..];
  }

  /** What the segmenter strips when stripping is pauses only. */
  lemma {:induction false} StrippedGapsArePauses(s: seq<Item>, sep: real, pre: seq<Item>)
    requires AllPauses(pre)
    ensures PausesOnly(StrippedGaps(s, sep, pre))
    decreases |s|
  {
    var t := DropLeadingPauses(s);
    var lead := pre + s[..|s| - |t|];
    LeadIsPauses(s, pre);
    StrippedGapsFront(s, sep, pre);
    if t == [] {
      assert [lead] + [] == [lead];
      GapsCons(lead, [], StrippedGaps(s, sep, pre));
    } else {
      var n := CutAt(t, sep, 1);
      var c := t[..n];
      TrailIsPauses(c);
      StrippedGapsArePauses(t[n..], sep, c[|c| - RunLen(c)..]);
      GapsCons(lead, StrippedGaps(t[n..], sep, c[|c| - RunLen(c)..]), StrippedGaps(s, sep, pre));
    }
  }

  /** There is one gap more than there are utterances. */
  lemma {:induction false} StrippedGapsCount(s: seq<Item>, sep: real, pre: seq<Item>)
    ensures |StrippedGaps(s, sep, pre)| == |Segments(s, sep, true)| + 1
    decreases |s|
  {
    var t := DropLeadingPauses(s);
    SegmentsFront(s, sep, true);
    StrippedGapsFront(s, sep, pre);
    if t != [] {
      var n := CutAt(t, sep, 1);
      var c := t[..n];
      StrippedGapsCount(t[n..], sep, c[|c| - RunLen(c)..]);
    }
  }

  /** With stripping, the utterances are contiguous pieces of the input
      after `pre`, in order, with the gaps around and between them. */
  lemma {:induction false} StrippedPieces(s: seq<Item>, sep: real, pre: seq<Item>)
    ensures var g := StrippedGaps(s, sep, pre); var us := Segments(s, sep, true);
      |g| == |us| + 1 && Interleave(g, us) == pre + s
    decreases |s|
  {
    var t := DropLeadingPauses(s);
    var lead := pre + s[..|s| - |t|];
    LeadSplit(s, pre);
    SegmentsFront(s, sep, true);
    StrippedGapsFront(s, sep, pre);
    StrippedGapsCount(s, sep, pre);
    if t == [] {
      assert Interleave([lead], []) == lead;
    } else {
      var n := CutAt(t, sep, 1);
      var c := t[..n];
      var m := |c| - RunLen(c);
      var g, us := StrippedGaps(t[n..], sep, c[m..]), Segments(t[n..], sep, true);
      StrippedPieces(t[n..], sep, c[m..]);
      assert Yielded(c, true) == c[..m];
      Regrouped(pre, s, lead, t, n, m);
      PiecesGlue(pre + s, lead, c[..m], c[m..] + t[n..], g, us, StrippedGaps(s, sep, pre), Segments(s, sep, true));
    }
  }

  /** One gap and one utterance in front of an interleaving. */
  lemma PiecesGlue(whole: seq<Item>, lead: seq<Item>, y: seq<Item>, rest: seq<Item>,
                   g: seq<seq<Item>>, us: seq<seq<Item>>, g0: seq<seq<Item>>, us0: seq<seq<Item>>)
    requires |g| == |us| + 1 && Interleave(g, us) == rest
    requires g0 == [lead] + g && us0 == [y] + us && whole == lead + y + rest
    ensures |g0| == |us0| + 1 && Interleave(g0, us0) == whole
  {
    InterleaveCons(lead, y, g, us);
  }

  /** Regrouping a concatenation. */
  lemma Rejoined<T>(a: seq<T>, b: seq<T>, c: seq<T>)
    ensures a + b + c == a + (b + c)
  {
  }

  lemma SplitAt<T>(t: seq<T>, n: nat)
    requires n <= |t|
    ensures t == t[..n] + t[n..]
  {
  }

  lemma FlattenCons<T>(c: seq<T>, rest: seq<seq<T>>)
    ensures Flatten([c] + rest) == c + Flatten(rest)
  {
    assert ([c] + rest)[1..] == rest;
  }

  /** Replacing the tail of `c + tail` by a sequence with the same selection
      keeps the selection. */
  lemma FilterRejoin<T>(t: seq<T>, c: seq<T>, tail: seq<T>, other: seq<T>, p: T -> bool)
    requires t == c + tail && Filter(other, p) == Filter(tail, p)
    ensures Filter(c + other, p) == Filter(t, p)
  {
    FilterAppend(c, tail, p);
    FilterAppend(c, other, p);
  }

  lemma LeadingPausesHoldNoWord(s: seq<Item>)
    ensures Filter(DropLeadingPauses(s), IsWord) == Filter(s, IsWord)
  {
    var r := DropLeadingPauses(s);
    var d := |s| - |r|;
    var lead := s[..d];
    LeadingSuffix(s);
    assert s == lead + r;
    FilterAppend(lead, r, IsWord);
    forall k | 0 <= k < |lead| ensures !IsWord(lead[k]) {
      assert lead[k] == s[k];
    }
    FilterNone(lead, IsWord);
  }

  /** Without stripping, the utterances are non-empty and together are
      exactly the input, in order. */
  lemma SegmentsWithoutStripping(s: seq<Item>, sep: real)
    ensures forall i :: 0 <= i < |Segments(s, sep, false)| ==> Segments(s, sep, false)[i] != []
    ensures Flatten(Segments(s, sep, false)) == s
  {
    ChunksShape(s, sep, false);
    ChunksCover(s, sep);
    var cs := Chunks(s, sep, false);
    assert forall i :: 0 <= i < |cs| ==> cs[i] != [];
    assert Segments(s, sep, false) == Chunks(s, sep, false);
  }

  /** Trailing pauses removed from a chunk that starts with a word: what is
      left starts and ends with a word and holds the same words. */
  lemma TrimmedChunk(c: seq<Item>)
    requires c != [] && !c[0].Pause?
    ensures var y := DropTrailingPauses(c);
      y != [] && !y[0].Pause? && !y[|y| - 1].Pause? && Filter(y, IsWord) == Filter(c, IsWord)
  {
    var n := RunLen(c);
    var y := DropTrailingPauses(c);
    assert c == y + c[|c| - n..];
    FilterAppend(y, c[|c| - n..], IsWord);
    FilterNone(c[|c| - n..], IsWord);
  }

  /** With stripping, every utterance is non-empty and starts and ends with
      a word; the utterances are contiguous pieces of the input, in order,
      and what lies before, between and after them is pauses only; so they
      hold every word of the input, in order. */
  lemma {:induction false} SegmentsWithStripping(s: seq<Item>, sep: real)
    ensures forall i :: 0 <= i < |Segments(s, sep, true)| ==>
      var u := Segments(s, sep, true)[i];
      u != [] && !u[0].Pause? && !u[|u| - 1].Pause?
    ensures var g := StrippedGaps(s, sep, []); var us := Segments(s, sep, true);
      |g| == |us| + 1 && PausesOnly(g) && Interleave(g, us) == s
    ensures Filter(Flatten(Segments(s, sep, true)), IsWord) == Filter(s, IsWord)
  {
    StrippedPieces(s, sep, []);
    StrippedGapsArePauses(s, sep, []);
    assert [] + s == s;
    var cs: seq<seq<Item>> := Chunks(s, sep, true);
    ChunksShape(s, sep, true);
    assert forall i :: 0 <= i < |cs| ==> cs[i] != [] && !cs[i][0].Pause?;
    forall i | 0 <= i < |cs| ensures var u := Segments(s, sep, true)[i]; u != [] && !u[0].Pause? && !u[|u| - 1].Pause? {
      TrimmedChunk(cs[i]);
    }
    ChunksKeepWords(s, sep);
    YieldedKeepsWords(cs);
  }

  lemma {:induction false} YieldedKeepsWords(cs: seq<seq<Item>>)
    requires forall i :: 0 <= i < |cs| ==> cs[i] != [] && !cs[i][0].Pause?
    ensures Filter(Flatten(YieldedAll(cs, true)), IsWord) == Filter(Flatten(cs), IsWord)
    decreases |cs|
  {
    if cs != [] {
      YieldedKeepsWords(cs[1..]);
      var ys := YieldedAll(cs, true);
      assert ys[1..] == YieldedAll(cs[1..], true);
      TrimmedChunk(cs[0]);
      FilterAppend(ys[0], Flatten(ys[1..]), IsWord);
      FilterAppend(cs[0], Flatten(cs[1..]), IsWord);
    }
  }

  // The segmenter's loop.

  /** `Segments` seen one utterance at a time. */
  lemma SegmentsFront(s: seq<Item>, sep: real, strip: bool)
    ensures var t := if strip then DropLeadingPauses(s) else s;
      && (t == [] ==> Segments(s, sep, strip) == [])
      && (t != [] ==>
            Segments(s, sep, strip) == [Yielded(t[..CutAt(t, sep, 1)], strip)] + Segments(t[CutAt(t, sep, 1)..], sep, strip))
  {
    ChunksFront(s, sep, strip);
    var t := if strip then DropLeadingPauses(s) else s;
    if t != [] {
      var n := CutAt(t, sep, 1);
      YieldedAllCons(t[..n], Chunks(t[n..], sep, strip), strip);
    }
  }

  lemma YieldedAllCons(c: seq<Item>, rest: seq<seq<Item>>, strip: bool)
    ensures YieldedAll([c] + rest, strip) == [Yielded(c, strip)] + YieldedAll(rest, strip)
  {
    var cs := [c] + rest;
    assert forall k :: 1 <= k < |cs| ==> cs[k] == rest[k - 1];
  }

  /** A stretch with no split at any of its prefixes. */
  predicate Open(c: seq<Item>, sep: real) {
    forall m {:trigger Cuts(c[..m], sep)} :: 1 <= m <= |c| ==> !Cuts(c[..m], sep)
  }

  lemma OpenExtend(c: seq<Item>, x: Item, sep: real)
    requires Open(c, sep) && !Cuts(c + [x], sep)
    ensures Open(c + [x], sep)
  {
    var c' := c + [x];
    forall m | 1 <= m <= |c'| ensures !Cuts(c'[..m], sep) {
      if m <= |c| {
        assert c'[..m] == c[..m];
      } else {
        assert c'[..m] == c';
      }
    }
  }

  lemma SliceExtend<T>(s: seq<T>, a: nat, b: nat)
    requires a <= b < |s|
    ensures s[a..b] + [s[b]] == s[a..b + 1]
  {
  }

  /** The first chunk short of its end splits nowhere, so the search for the
      first split can start past it. */
  lemma {:induction false} CutAtSkips(t: seq<Item>, sep: real, j: nat, n: nat)
    requires 1 <= j <= n <= |t|
    requires forall m {:trigger Cuts(t[..m], sep)} :: j <= m < n ==> !Cuts(t[..m], sep)
    ensures CutAt(t, sep, j) == CutAt(t, sep, n)
    decreases n - j
  {
    if j < n {
      CutAtSkips(t, sep, j + 1, n);
    }
  }

  /** A chunk that starts a stream and runs to where the segmenter splits, or
      to the end of the stream, is the stream's first utterance. */
  lemma ResumeAt(t: seq<Item>, sep: real, strip: bool, n: nat)
    requires 1 <= n <= |t| && (strip ==> !t[0].Pause?)
    requires forall m {:trigger Cuts(t[..m], sep)} :: 1 <= m < n ==> !Cuts(t[..m], sep)
    requires n == |t| || Cuts(t[..n], sep)
    ensures Segments(t, sep, strip) == [Yielded(t[..n], strip)] + Segments(t[n..], sep, strip)
  {
    SegmentsFront(t, sep, strip);
    CutAtSkips(t, sep, 1, n);
  }

  /** With stripping, a pause that arrives before the utterance has a word
      is skipped. */
  lemma SkipPause(t: seq<Item>, sep: real)
    requires t != [] && t[0].Pause?
    ensures Segments(t, sep, true) == Segments(t[1..], sep, true)
  {
    SegmentsFront(t, sep, true);
    SegmentsFront(t[1..], sep, true);
  }

  lemma RunStep(c: seq<Item>, x: Item)
    ensures RunLen(c + [x]) == if x.Pause? then RunLen(c) + 1 else 0
    ensures RunSum(c + [x]) == if x.Pause? then RunSum(c) + x.Dur().GetOr(0.0) else 0.0
    ensures RunLen(c) == 0 ==> RunSum(c) == 0.0
  {
    assert (c + [x])[..|c|] == c;
  }

  /** In a chronological input, the items gathered since `start` are in
      order and begin no later than the next one, so appending it keeps it
      last. */
  lemma ChronologicalAppend(items: seq<Item>, start: nat, i: nat)
    requires Chronological(items) && start <= i < |items|
    ensures Begun(items[start..i]) && SortedByBeg(items[start..i]) && Forward(items[start..i])
    ensures forall k :: 0 <= k < |items[start..i]| ==> !(items[i].beg.value < items[start..i][k].beg.value)
    ensures items[i].Timed() && items[i].beg.value <= items[i].end.value
    ensures Begun(items[start..i] + [items[i]]) && SortByBeg(items[start..i] + [items[i]]) == items[start..i + 1]
  {
    ChronologicalSlice(items, start, i);
    AppendLatest(items[start..i], items[i]);
    SliceExtend(items, start, i);
  }

  lemma ChronologicalSlice(items: seq<Item>, start: nat, i: nat)
    requires Chronological(items) && start <= i < |items|
    ensures var c := items[start..i];
      && Begun(c) && SortedByBeg(c) && Forward(c)
      && forall k :: 0 <= k < |c| ==> Key(c[k]) <= Key(items[i])
  {
    var c := items[start..i];
    forall k | 0 <= k < |c| ensures c[k] == items[start + k] {}
    assert SortedByBeg(c) by {
      forall k, l | 0 <= k < l < |c| ensures Key(c[k]) <= Key(c[l]) {
        assert c[k] == items[start + k] && c[l] == items[start + l];
      }
    }
  }

  /** What the segmenter's state means on a chronological input, after the
      first `i` items: the current utterance holds the items since `start`,
      with no split at any of its prefixes, and the pause counters describe
      the run of pauses that ends it. */
  ghost predicate Gathered(items: seq<Item>, sep: real, strip: bool, start: nat, i: nat,
                           words: seq<Item>, pauseCount: nat, pauseDuration: real)
  {
    && Chronological(items) && start <= i <= |items|
    && words == items[start..i]
    && (strip && start < i ==> !items[start].Pause?)
    && Open(words, sep)
    && pauseCount == RunLen(words)
    && (pauseCount > 0 ==> pauseDuration == RunSum(words))
    && (sep > 0.0 ==> pauseDuration < sep)
    && (sep <= 0.0 ==> start == i && pauseDuration == 0.0 && pauseCount == 0)
  }

  /** The utterances still to come are those of the stream from `start`. */
  ghost predicate Remaining(items: seq<Item>, sep: real, strip: bool, start: nat, done: seq<seq<Item>>) {
    start <= |items| && Segments(items, sep, strip) == done + Segments(items[start..], sep, strip)
  }

  lemma TrackingStarts(items: seq<Item>, sep: real, strip: bool)
    requires Chronological(items)
    ensures Gathered(items, sep, strip, 0, 0, [], 0, 0.0) && Remaining(items, sep, strip, 0, [])
  {
    assert items[0..] == items;
  }

  /** A pause skipped while the utterance is empty. */
  lemma GatheredSkips(items: seq<Item>, sep: real, start: nat, i: nat, pauseCount: nat, pauseDuration: real)
    requires Gathered(items, sep, true, start, i, [], pauseCount, pauseDuration)
    requires i < |items| && items[i].Pause?
    ensures Gathered(items, sep, true, i + 1, i + 1, [], pauseCount, pauseDuration)
    ensures start == i
  {
    assert items[i + 1..i + 1] == [];
  }

  lemma RemainingSkips(items: seq<Item>, sep: real, i: nat, done: seq<seq<Item>>)
    requires Remaining(items, sep, true, i, done)
    requires i < |items| && items[i].Pause?
    ensures Remaining(items, sep, true, i + 1, done)
  {
    assert items[i..][1..] == items[i + 1..];
    SkipPause(items[i..], sep);
  }

  /** The next item is accepted by `append`: it is timed and forward, and
      begins no earlier than any item of the utterance. */
  lemma GatheredAccepts(items: seq<Item>, sep: real, strip: bool, start: nat, i: nat,
                        words: seq<Item>, pauseCount: nat, pauseDuration: real)
    requires Gathered(items, sep, strip, start, i, words, pauseCount, pauseDuration)
    requires i < |items|
    ensures var x := items[i];
      && x.Timed() && x.beg.value <= x.end.value
      && forall k :: 0 <= k < |words| ==> words[k].beg.Some? && words[k].beg.value <= x.beg.value
  {
    ChronologicalSlice(items, start, i);
  }

  /** The counters after the next item is appended, and whether the
      segmenter splits there. */
  lemma GatheredAppends(items: seq<Item>, sep: real, strip: bool, start: nat, i: nat,
                        words: seq<Item>, pauseCount: nat, pauseDuration: real,
                        count: nat, duration: real)
    requires Gathered(items, sep, strip, start, i, words, pauseCount, pauseDuration)
    requires i < |items| && !(strip && items[i].Pause? && words == [])
    requires items[i].Pause? ==>
      (count == pauseCount + 1 &&
       duration == (if pauseCount == 0 then 0.0 else pauseDuration) + items[i].end.value - items[i].beg.value)
    requires !items[i].Pause? ==> count == 0 && duration == pauseDuration
    ensures var w := words + [items[i]];
      && w == items[start..i + 1]
      && count == RunLen(w) && count <= |w|
      && (Cuts(w, sep) <==> duration >= sep)
      && (duration < sep ==> Gathered(items, sep, strip, start, i + 1, w, count, duration))
      && (duration >= sep ==> Gathered(items, sep, strip, i + 1, i + 1, [], 0, 0.0))
      && (strip ==> !w[0].Pause?)
  {
    var x := items[i];
    var w := words + [x];
    SliceExtend(items, start, i);
    ChronologicalSlice(items, start, i);
    RunStep(words, x);
    if duration < sep {
      OpenExtend(words, x, sep);
    } else {
      assert items[i + 1..i + 1] == [];
    }
  }

  /** At a split, the utterance yielded is the one the reference yields
      next. */
  lemma RemainingSplits(items: seq<Item>, sep: real, strip: bool, start: nat, i: nat,
                        done: seq<seq<Item>>, words: seq<Item>, count: nat)
    requires Remaining(items, sep, strip, start, done)
    requires start <= i < |items| && words == items[start..i] && Open(words, sep)
    requires Cuts(words + [items[i]], sep) && count == RunLen(words + [items[i]])
    requires strip ==> !(words + [items[i]])[0].Pause?
    ensures var w := words + [items[i]];
      var y := Trim(w, strip, count);
      y != [] && Remaining(items, sep, strip, i + 1, done + [y])
  {
    var w := words + [items[i]];
    var y := Trim(w, strip, count);
    SplitFront(items, start, i, words, sep, strip, count);
    ConcatAssoc(done, [y], Segments(items[i + 1..], sep, strip));
  }

  lemma SplitFront(items: seq<Item>, start: nat, i: nat, words: seq<Item>, sep: real, strip: bool, count: nat)
    requires start <= i < |items| && words == items[start..i] && Open(words, sep)
    requires Cuts(words + [items[i]], sep) && count == RunLen(words + [items[i]])
    requires strip ==> !(words + [items[i]])[0].Pause?
    ensures var w := words + [items[i]];
      var y := Trim(w, strip, count);
      y != [] && Segments(items[start..], sep, strip) == [y] + Segments(items[i + 1..], sep, strip)
  {
    var w := words + [items[i]];
    var t := items[start..];
    var n := i + 1 - start;
    var y := Trim(w, strip, count);
    SplitSlices(items, start, i, words, sep);
    calc {
      Segments(t, sep, strip);
    == { assert t[0] == w[0]; ResumeAt(t, sep, strip, n); }
      [Yielded(t[..n], strip)] + Segments(t[n..], sep, strip);
    == { YieldedTrimmed(w, strip, count); }
      [y] + Segments(items[i + 1..], sep, strip);
    }
  }

  /** The stream from `start` seen as the gathered items, the next one and
      the rest. */
  lemma SplitSlices(items: seq<Item>, start: nat, i: nat, words: seq<Item>, sep: real)
    requires start <= i < |items| && words == items[start..i] && Open(words, sep)
    ensures var t := items[start..];
      var n := i + 1 - start;
      && 1 <= n <= |t|
      && t[..n] == words + [items[i]] && t[n..] == items[i + 1..]
      && forall m {:trigger Cuts(t[..m], sep)} :: 1 <= m < n ==> !Cuts(t[..m], sep)
  {
    var t := items[start..];
    var n := i + 1 - start;
    SuffixSlices(items, start, i + 1);
    SliceExtend(items, start, i);
    forall m | 1 <= m < n ensures !Cuts(t[..m], sep) {
      PrefixOfSuffix(items, start, i, m);
    }
  }

  /** What the segmenter yields for a chunk, with the count of its trailing
      pauses at hand. */
  lemma YieldedTrimmed(w: seq<Item>, strip: bool, count: nat)
    requires w != [] && (strip ==> !w[0].Pause?) && count == RunLen(w)
    ensures var y := Trim(w, strip, count);
      Yielded(w, strip) == y && y != [] && (y == [] <==> w == [])
  {
    if strip {
      TrimmedChunk(w);
    }
    if count == 0 {
      assert w[..|w| - count] == w;
    }
  }

  lemma ConcatAssoc<T>(a: seq<T>, b: seq<T>, c: seq<T>)
    ensures a + (b + c) == (a + b) + c
  {
  }

  lemma SuffixSlices<T>(s: seq<T>, a: nat, b: nat)
    requires a <= b <= |s|
    ensures s[a..][..b - a] == s[a..b] && s[a..][b - a..] == s[b..]
  {
  }

  lemma PrefixOfSuffix<T>(s: seq<T>, a: nat, b: nat, m: nat)
    requires a <= b <= |s| && m <= b - a
    ensures s[a..][..m] == s[a..b][..m]
  {
  }

  /** At the end of the stream, the last utterance is what the reference
      yields last. */
  lemma TrackingEnds(items: seq<Item>, sep: real, strip: bool, start: nat,
                     done: seq<seq<Item>>, words: seq<Item>, pauseCount: nat, pauseDuration: real)
    requires Gathered(items, sep, strip, start, |items|, words, pauseCount, pauseDuration)
    requires Remaining(items, sep, strip, start, done)
    ensures var y := Trim(words, strip, pauseCount);
      && Segments(items, sep, strip) == done + (if y != [] then [y] else [])
      && (y == [] <==> words == [])
  {
    assert items[start..] == words;
    LastChunk(words, sep, strip, pauseCount);
  }

  /** A stretch with no split before its end, taken to the end of the
      stream, is the last utterance, trimmed. */
  lemma LastChunk(t: seq<Item>, sep: real, strip: bool, count: nat)
    requires Open(t, sep) && (strip && t != [] ==> !t[0].Pause?) && count == RunLen(t)
    ensures var y := Trim(t, strip, count);
      && Segments(t, sep, strip) == (if y != [] then [y] else [])
      && (y == [] <==> t == [])
  {
    var y := Trim(t, strip, count);
    if t != [] {
      assert y != [] by { YieldedTrimmed(t, strip, count); }
      assert Segments(t, sep, strip) == [y] by {
        calc {
          Segments(t, sep, strip);
        == { ResumeAt(t, sep, strip, |t|); }
          [Yielded(t[..|t|], strip)] + Segments(t[|t|..], sep, strip);
        == { assert t[|t|..] == [] && t[..|t|] == t; SegmentsFront([], sep, strip); }
          [Yielded(t, strip)];
        == { YieldedTrimmed(t, strip, count); }
          [y];
        }
      }
    } else {
      SegmentsFront(t, sep, strip);
    }
  }

  /** The outcome of the segmenter: the utterances yielded, as lists of
      items, and the exception that stopped it, if any. */
  datatype Segmented = Segmented(utterances: seq<seq<Item>>, error: Option<UttError>)

  /** The items an utterance yields: without its last `count` items when
      stripping pauses and `count` is not zero. */
  function Trim(words: seq<Item>, strip: bool, count: nat): (y: seq<Item>)
    requires count <= |words|
    ensures |y| <= |words| && y == words[..|y|]
    ensures |y| == |words| <==> !strip || count == 0
  {
    if strip && count > 0 then words[..|words| - count] else words
  }

  /** The utterances yielded so far, with `y` yielded next if it is not empty. */
  function YieldIfAny(done: seq<seq<Item>>, y: seq<Item>): (r: seq<seq<Item>>)
    ensures y != [] ==> r == done + [y]
    ensures y == [] ==> r == done
    ensures (forall k :: 0 <= k < |done| ==> done[k] != []) ==> forall k :: 0 <= k < |r| ==> r[k] != []
  {
    if y != [] then done + [y] else done
  }

  /** The segmenter's state between items: the items of the current
      utterance, the length and duration of the run of pauses, and the
      utterances yielded so far. */
  datatype State = State(words: seq<Item>, count: nat, duration: real, done: seq<seq<Item>>)

  predicate Fits(s: State) {
    s.count <= |s.words| && Begun(s.words)
  }

  /** What one item does to the state: go on, or stop with an error. */
  datatype Phase = Going(state: State) | Stopped(error: UttError)

  /** `pause_count` after item `x`: one more after a pause, reset by a word. */
  function PauseCount(x: Item, s: State): nat {
    if x.Pause? then s.count + 1 else 0
  }

  /** `pause_duration` after item `x`: restarted by the first pause of a
      run, grown by each later one, and left as it was by a word. */
  function PauseDuration(x: Item, s: State): real
    requires x.Pause? ==> x.Dur().Some?
  {
    if !x.Pause? then s.duration
    else if s.count == 0 then x.Dur().value
    else s.duration + x.Dur().value
  }

  /** The state once the item is appended, giving utterance `w` and
      counters `count` and `duration`: the utterance is yielded, if anything
      is left of it, once the run of pauses reaches `sep`. */
  function Advance(w: seq<Item>, sep: real, strip: bool, count: nat, duration: real, done: seq<seq<Item>>): (t: State)
    requires count <= |w|
    ensures t.count <= |t.words|
  {
    if duration >= sep then State([], 0, 0.0, YieldIfAny(done, Trim(w, strip, count)))
    else State(w, count, duration, done)
  }

  /** One pass of the segmenter's loop body on item `x`: skip a leading
      pause when stripping, update the pause counters, append, and yield
      the utterance when the pause run reaches `sep`. */
  function Step(x: Item, sep: real, strip: bool, s: State): (o: Phase)
    requires Fits(s)
    ensures o.Going? ==> Fits(o.state)
    ensures o.Stopped? <==> !(x.Pause? && strip && s.words == []) && Refusal(s.words, x).Some?
  {
    if x.Pause? && strip && s.words == [] then Going(s)
    else if x.Pause? && x.Dur().None? then Stopped(MissingTimestamp)
    else
      match Refusal(s.words, x)
      case Some(e) => Stopped(e)
      case None =>
        Going(Advance(SortByBeg(s.words + [x]), sep, strip, PauseCount(x, s), PauseDuration(x, s), s.done))
  }

  /** The run of the segmenter from item `i` on, in state `s`. */
  function Run(items: seq<Item>, sep: real, strip: bool, i: nat, s: State): Segmented
    requires i <= |items| && Fits(s)
    decreases |items| - i
  {
    if i == |items| then Segmented(YieldIfAny(s.done, Trim(s.words, strip, s.count)), None)
    else match Step(items[i], sep, strip, s)
      case Stopped(e) => Segmented(s.done, Some(e))
      case Going(t) => Run(items, sep, strip, i + 1, t)
  }

  predicate AllNonEmpty(us: seq<seq<Item>>) {
    forall k :: 0 <= k < |us| ==> us[k] != []
  }

  /** A step keeps every yielded utterance non-empty. */
  lemma StepYieldsNonEmpty(x: Item, sep: real, strip: bool, s: State)
    requires Fits(s) && AllNonEmpty(s.done)
    ensures Step(x, sep, strip, s).Going? ==> AllNonEmpty(Step(x, sep, strip, s).state.done)
  {
  }

  /** Every utterance the segmenter yields is non-empty. */
  lemma {:induction false} RunYieldsNonEmpty(items: seq<Item>, sep: real, strip: bool, i: nat, s: State)
    requires i <= |items| && Fits(s) && AllNonEmpty(s.done)
    ensures AllNonEmpty(Run(items, sep, strip, i, s).utterances)
    decreases |items| - i
  {
    if i < |items| {
      StepYieldsNonEmpty(items[i], sep, strip, s);
      var o := Step(items[i], sep, strip, s);
      if o.Going? {
        RunYieldsNonEmpty(items, sep, strip, i + 1, o.state);
      }
    }
  }

  /** On a chronological input, the segmenter's run yields the reference
      utterances and raises nothing. */
  lemma RunFollowsSegments(items: seq<Item>, sep: real, strip: bool)
    requires Chronological(items)
    ensures Run(items, sep, strip, 0, State([], 0, 0.0, [])) == Segmented(Segments(items, sep, strip), None)
  {
    TrackingStarts(items, sep, strip);
    RunReaches(items, sep, strip, 0, 0, State([], 0, 0.0, []));
  }

  /** From a state that `Tracking` describes, the run ends with the
      reference segmentation. */
  lemma {:induction false} RunReaches(items: seq<Item>, sep: real, strip: bool, start: nat, i: nat, s: State)
    requires Tracking(items, sep, strip, start, i, s)
    ensures Run(items, sep, strip, i, s) == Segmented(Segments(items, sep, strip), None)
    decreases |items| - i, 1
  {
    if i == |items| {
      RunEnds(items, sep, strip, start, s);
    } else if items[i].Pause? && strip && s.words == [] {
      RunSkipping(items, sep, strip, start, i, s);
    } else {
      RunAppending(items, sep, strip, start, i, s);
    }
  }

  /** A leading pause is skipped and the run goes on from the next item. */
  lemma {:induction false} RunSkipping(items: seq<Item>, sep: real, strip: bool, start: nat, i: nat, s: State)
    requires Tracking(items, sep, strip, start, i, s) && i < |items|
    requires items[i].Pause? && strip && s.words == []
    ensures Run(items, sep, strip, i, s) == Segmented(Segments(items, sep, strip), None)
    decreases |items| - i, 0
  {
    GatheredSkips(items, sep, start, i, s.count, s.duration);
    RemainingSkips(items, sep, i, s.done);
    RunReaches(items, sep, strip, i + 1, i + 1, s);
    RunGoesOn(items, sep, strip, i, s, s);
  }

  /** Any other item is appended and the run goes on from the next item. */
  lemma {:induction false} RunAppending(items: seq<Item>, sep: real, strip: bool, start: nat, i: nat, s: State)
    requires Tracking(items, sep, strip, start, i, s) && i < |items|
    requires !(items[i].Pause? && strip && s.words == [])
    ensures Run(items, sep, strip, i, s) == Segmented(Segments(items, sep, strip), None)
    decreases |items| - i, 0
  {
    var t := StepAccepted(items, sep, strip, start, i, s);
    var start' := RunAppends(items, sep, strip, start, i, s, t);
    RunReaches(items, sep, strip, start', i + 1, t);
    RunGoesOn(items, sep, strip, i, s, t);
  }

  /** The ghost state of the segmenter's proof after `i` items. */
  ghost predicate Tracking(items: seq<Item>, sep: real, strip: bool, start: nat, i: nat, s: State) {
    && Gathered(items, sep, strip, start, i, s.words, s.count, s.duration)
    && Remaining(items, sep, strip, start, s.done)
    && Fits(s)
  }

  lemma RunEnds(items: seq<Item>, sep: real, strip: bool, start: nat, s: State)
    requires Tracking(items, sep, strip, start, |items|, s)
    ensures Run(items, sep, strip, |items|, s) == Segmented(Segments(items, sep, strip), None)
  {
    TrackingEnds(items, sep, strip, start, s.done, s.words, s.count, s.duration);
  }

  /** For an item that is appended, the state `StepAccepted` computes is
      described by `Gathered` and `Remaining` again. */
  lemma RunAppends(items: seq<Item>, sep: real, strip: bool, start: nat, i: nat, s: State, t: State)
    returns (start': nat)
    requires Gathered(items, sep, strip, start, i, s.words, s.count, s.duration)
    requires Remaining(items, sep, strip, start, s.done)
    requires i < |items| && Fits(s) && !(items[i].Pause? && strip && s.words == [])
    requires items[i].Pause? ==> items[i].Dur().Some?
    requires t == Advance(s.words + [items[i]], sep, strip, PauseCount(items[i], s), PauseDuration(items[i], s), s.done)
    ensures Gathered(items, sep, strip, start', i + 1, t.words, t.count, t.duration)
    ensures Remaining(items, sep, strip, start', t.done)
  {
    if PauseDuration(items[i], s) >= sep {
      RunCuts(items, sep, strip, start, i, s, t);
      start' := i + 1;
    } else {
      RunKeeps(items, sep, strip, start, i, s, t);
      start' := start;
    }
  }

  /** The counters after item `x`, in terms of its timestamps. */
  lemma CountersAfter(x: Item, s: State)
    requires x.Pause? ==> x.Dur().Some?
    ensures x.Pause? ==>
      (PauseCount(x, s) == s.count + 1 &&
       PauseDuration(x, s) == (if s.count == 0 then 0.0 else s.duration) + x.end.value - x.beg.value)
    ensures !x.Pause? ==> PauseCount(x, s) == 0 && PauseDuration(x, s) == s.duration
  {
  }

  /** An item that does not complete a cut joins the utterance being
      gathered. */
  lemma RunKeeps(items: seq<Item>, sep: real, strip: bool, start: nat, i: nat, s: State, t: State)
    requires Gathered(items, sep, strip, start, i, s.words, s.count, s.duration)
    requires i < |items| && Fits(s) && !(items[i].Pause? && strip && s.words == [])
    requires items[i].Pause? ==> items[i].Dur().Some?
    requires PauseDuration(items[i], s) < sep
    requires t == Advance(s.words + [items[i]], sep, strip, PauseCount(items[i], s), PauseDuration(items[i], s), s.done)
    ensures Gathered(items, sep, strip, start, i + 1, t.words, t.count, t.duration)
    ensures t.done == s.done
  {
    var count, duration := PauseCount(items[i], s), PauseDuration(items[i], s);
    assert t == State(s.words + [items[i]], count, duration, s.done);
    CountersAfter(items[i], s);
    GatheredAppends(items, sep, strip, start, i, s.words, s.count, s.duration, count, duration);
  }

  /** An item that completes a cut: the next utterance is the one the
      reference yields, and the run starts afresh after the item. */
  lemma RunCuts(items: seq<Item>, sep: real, strip: bool, start: nat, i: nat, s: State, t: State)
    requires Gathered(items, sep, strip, start, i, s.words, s.count, s.duration)
    requires Remaining(items, sep, strip, start, s.done)
    requires i < |items| && Fits(s) && !(items[i].Pause? && strip && s.words == [])
    requires items[i].Pause? ==> items[i].Dur().Some?
    requires PauseDuration(items[i], s) >= sep
    requires t == Advance(s.words + [items[i]], sep, strip, PauseCount(items[i], s), PauseDuration(items[i], s), s.done)
    ensures Gathered(items, sep, strip, i + 1, i + 1, t.words, t.count, t.duration)
    ensures Remaining(items, sep, strip, i + 1, t.done)
  {
    var count, duration := PauseCount(items[i], s), PauseDuration(items[i], s);
    assert t == State([], 0, 0.0, YieldIfAny(s.done, Trim(s.words + [items[i]], strip, count)));
    CountersAfter(items[i], s);
    GatheredAppends(items, sep, strip, start, i, s.words, s.count, s.duration, count, duration);
    RemainingSplits(items, sep, strip, start, i, s.done, s.words, count);
  }

  /** An item that is not skipped, taken from a state that `Gathered`
      describes, is accepted and appended last. */
  lemma StepAccepted(items: seq<Item>, sep: real, strip: bool, start: nat, i: nat, s: State)
    returns (t: State)
    requires Gathered(items, sep, strip, start, i, s.words, s.count, s.duration)
    requires i < |items| && Fits(s) && !(items[i].Pause? && strip && s.words == [])
    ensures Step(items[i], sep, strip, s) == Going(t)
    ensures items[i].Pause? ==> items[i].Dur().Some?
    ensures t == Advance(s.words + [items[i]], sep, strip, PauseCount(items[i], s), PauseDuration(items[i], s), s.done)
  {
    var x := items[i];
    assert Refusal(s.words, x).None? by {
      GatheredAccepts(items, sep, strip, start, i, s.words, s.count, s.duration);
    }
    assert SortByBeg(s.words + [x]) == s.words + [x] by {
      ChronologicalSlice(items, start, i);
      AppendLatest(s.words, x);
    }
    StepTakes(x, sep, strip, s);
    t := Advance(s.words + [x], sep, strip, PauseCount(x, s), PauseDuration(x, s), s.done);
  }

  /** A step that stops ends the run with that error, keeping the
      utterances yielded so far. */
  lemma RunStops(items: seq<Item>, sep: real, strip: bool, i: nat, s: State, e: UttError)
    requires i < |items| && Fits(s) && Step(items[i], sep, strip, s) == Stopped(e)
    ensures Run(items, sep, strip, i, s) == Segmented(s.done, Some(e))
  {
  }

  /** At the end of the stream, what is gathered is yielded if anything is
      left of it once trailing pauses are stripped. */
  lemma RunFinishes(items: seq<Item>, sep: real, strip: bool, s: State)
    requires Fits(s)
    ensures Run(items, sep, strip, |items|, s) == Segmented(YieldIfAny(s.done, Trim(s.words, strip, s.count)), None)
  {
  }

  /** A step that goes on leaves the rest of the run to the next item. */
  lemma RunGoesOn(items: seq<Item>, sep: real, strip: bool, i: nat, s: State, t: State)
    requires i < |items| && Fits(s) && Step(items[i], sep, strip, s) == Going(t)
    ensures Fits(t) && Run(items, sep, strip, i, s) == Run(items, sep, strip, i + 1, t)
  {
  }

  lemma GatheredBegun(items: seq<Item>, sep: real, strip: bool, start: nat, i: nat,
                      words: seq<Item>, count: nat, duration: real)
    requires Gathered(items, sep, strip, start, i, words, count, duration)
    ensures count <= |words| && Begun(words)
  {
    forall k | 0 <= k < |words| ensures words[k].beg.Some? {
      assert words[k] == items[start + k];
    }
  }

  /** The step for an item that is not skipped and that `append` refuses:
      the run stops with the refusal. */
  lemma StepRefused(x: Item, sep: real, strip: bool, s: State)
    requires Fits(s) && !(x.Pause? && strip && s.words == [])
    requires x.Pause? ==> x.Dur().Some?
    requires Refusal(s.words, x).Some?
    ensures Step(x, sep, strip, s) == Stopped(Refusal(s.words, x).value)
  {
  }

  /** The step for an item that is not skipped and that `append` accepts:
      the item is appended, and the utterance cut once the run of pauses
      reaches `sep`. */
  lemma StepTakes(x: Item, sep: real, strip: bool, s: State)
    requires Fits(s) && !(x.Pause? && strip && s.words == [])
    requires Refusal(s.words, x).None?
    ensures x.Dur().Some? && Begun(s.words + [x]) && PauseCount(x, s) <= |SortByBeg(s.words + [x])|
    ensures Step(x, sep, strip, s) ==
      Going(Advance(SortByBeg(s.words + [x]), sep, strip, PauseCount(x, s), PauseDuration(x, s), s.done))
  {
    var v := s.words + [x];
    forall k | 0 <= k < |v| ensures v[k].beg.Some? {
      if k < |s.words| {
        assert v[k] == s.words[k];
      }
    }
    assert |SortByBeg(v)| == |s.words| + 1;
  }

  /** One pass of the loop of `words_to_utterances` over the item `x`:
      the pause bookkeeping, `append`, and the cut once the run of pauses
      reaches `sep`.  It does what `Step` says, and `stop` is the error that
      ends the generator. */
  method Feed(x: Item, sep: real, strip: bool, utt: Utterance, pauseCount: nat, pauseDuration: real,
              done: seq<seq<Item>>)
    returns (stop: Option<UttError>, utt': Utterance, count': nat, duration': real, done': seq<seq<Item>>)
    requires utt.Valid() && pauseCount <= |utt.words| && Begun(utt.words)
    modifies utt
    ensures utt'.Valid() && (utt' == utt || fresh(utt')) && (stop.Some? ==> done' == done)
    ensures var s := State(old(utt.words), pauseCount, pauseDuration, done);
      && Fits(s)
      && (stop.Some? ==> Step(x, sep, strip, s) == Stopped(stop.value))
      && (stop.None? ==> Step(x, sep, strip, s) == Going(State(utt'.words, count', duration', done')))
  {
    ghost var s := State(utt.words, pauseCount, pauseDuration, done);
    utt', count', duration', done' := utt, pauseCount, pauseDuration, done;
    if x.Pause? {
      if strip && |utt.words| == 0 {
        return None, utt', count', duration', done';
      }
      // A pause without timestamps stops the run here (`+=`) or in
      // `append` (`=`): the same `TypeError` either way.
      var d := x.Dur();
      if d.None? {
        return Some(MissingTimestamp), utt', count', duration', done';
      }
      if count' == 0 {
        duration' := d.value;
      } else {
        duration' := duration' + d.value;
      }
      count' := count' + 1;
    } else {
      count' := 0;
    }
    assert count' == PauseCount(x, s) && duration' == PauseDuration(x, s);
    if Refusal(utt.words, x).Some? {
      StepRefused(x, sep, strip, s);
    } else {
      StepTakes(x, sep, strip, s);
    }
    stop, utt', count', duration', done' := Take(x, sep, strip, utt, count', duration', done);
  }

  /** The second half of a pass of the loop: `append` the item, and once
      the run of pauses reaches `sep`, strip it if asked to, yield the
      utterance if anything is left and start afresh. */
  method Take(x: Item, sep: real, strip: bool, utt: Utterance, count: nat, duration: real,
              done: seq<seq<Item>>)
    returns (stop: Option<UttError>, utt': Utterance, count': nat, duration': real, done': seq<seq<Item>>)
    requires utt.Valid() && count <= |utt.words| + 1
    modifies utt
    ensures utt'.Valid() && (utt' == utt || fresh(utt'))
    ensures stop == Refusal(old(utt.words), x)
    ensures stop.Some? ==> utt' == utt && utt.words == old(utt.words) && done' == done
    ensures stop.None? ==>
      && Begun(old(utt.words) + [x]) && count <= |old(utt.words)| + 1
      && State(utt'.words, count', duration', done') ==
         Advance(SortByBeg(old(utt.words) + [x]), sep, strip, count, duration, done)
      && (duration < sep ==> utt' == utt)
  {
    utt', count', duration', done' := utt, count, duration, done;
    stop := utt.Append(x);
    if stop.Some? {
      return;
    }
    if duration >= sep {
      done' := Flush(strip, utt, count, done);
      if |utt.words| > 0 {
        utt' := new Utterance.Empty();
      }
      duration' := 0.0;
      count' := 0;
    }
  }

  /** `words_to_utterances(words, sep, strip_pauses)`: feeds the items to an
      utterance one by one, tracking the duration and length of the current
      run of pauses, and yields the utterance whenever the run reaches
      `sep`, and at the end.  What it yields, and the error that stops it,
      are the run `Run` from the empty state; `RunMeaning` says what that
      run is. */
  method WordsToUtterances(items: seq<Item>, sep: real, strip: bool) returns (r: Segmented)
    ensures r == Run(items, sep, strip, 0, State([], 0, 0.0, []))
  {
    var done: seq<seq<Item>> := [];
    var utt := new Utterance.Empty();
    var pauseDuration: real := 0.0;
    var pauseCount: nat := 0;
    ghost var run := Run(items, sep, strip, 0, State([], 0, 0.0, []));
    var i := 0;
    while i < |items|
      invariant 0 <= i <= |items|
      invariant fresh(utt) && utt.Valid()
      invariant pauseCount <= |utt.words| && Begun(utt.words)
      invariant Run(items, sep, strip, i, State(utt.words, pauseCount, pauseDuration, done)) == run
    {
      ghost var s := State(utt.words, pauseCount, pauseDuration, done);
      var stop;
      stop, utt, pauseCount, pauseDuration, done := Feed(items[i], sep, strip, utt, pauseCount, pauseDuration, done);
      if stop.Some? {
        RunStops(items, sep, strip, i, s, stop.value);
        return Segmented(done, stop);
      }
      RunGoesOn(items, sep, strip, i, s, State(utt.words, pauseCount, pauseDuration, done));
      i := i + 1;
    }
    RunFinishes(items, sep, strip, State(utt.words, pauseCount, pauseDuration, done));
    done := Flush(strip, utt, pauseCount, done);
    return Segmented(done, None);
  }

  /** What the run from the start promises: non-empty utterances, and the
      reference segmentation on a chronological input. */
  lemma RunMeaning(items: seq<Item>, sep: real, strip: bool)
    ensures AllNonEmpty(Run(items, sep, strip, 0, State([], 0, 0.0, [])).utterances)
    ensures Chronological(items) ==>
      Run(items, sep, strip, 0, State([], 0, 0.0, [])) == Segmented(Segments(items, sep, strip), None)
  {
    RunYieldsNonEmpty(items, sep, strip, 0, State([], 0, 0.0, []));
    if Chronological(items) {
      RunFollowsSegments(items, sep, strip);
    }
  }

  /** The end of `words_to_utterances`, and of a cut: strips the trailing
      pauses if asked to and yields the utterance if anything is left. */
  method Flush(strip: bool, utt: Utterance, pauseCount: nat, done: seq<seq<Item>>) returns (done': seq<seq<Item>>)
    requires utt.Valid() && pauseCount <= |utt.words|
    modifies utt
    ensures utt.Valid() && utt.words == Trim(old(utt.words), strip, pauseCount)
    ensures done' == YieldIfAny(done, utt.words)
  {
    if strip && pauseCount > 0 {
      utt.Truncate(pauseCount);
    }
    done' := done;
    if |utt.words| > 0 {
      done' := done' + [utt.words];
    }
  }
}
