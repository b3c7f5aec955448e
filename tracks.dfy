/** A track of the corpus: the words, phones, log entries and transcript
    of one recording, each word and pause linked to the phones it spans,
    and a query for the log entries that overlap an interval. */
module Tracks {
  import opened Wrappers
  import opened Containers
  import opened Bisect
  import opened Seqs
  import opened Parsers

  predicate PhonesTimed(ps: seq<Phone>) {
    forall k :: 0 <= k < |ps| ==> ps[k].beg.Some? && ps[k].end.Some?
  }

  predicate ItemsTimed(ws: seq<Item>) {
    forall k :: 0 <= k < |ws| ==> ws[k].Timed()
  }

  predicate LogTimed(log: seq<LogEntry>) {
    forall k :: 0 <= k < |log| ==> log[k].beg.Some? && log[k].end.Some?
  }

  // Linking phones to words.

  /** `p.beg + 0.5 * p.dur`. */
  function Mid(p: Phone): real
    requires p.beg.Some? && p.end.Some?
  {
    p.beg.value + 0.5 * p.Dur().value
  }

  function Midpoints(ps: seq<Phone>): (m: seq<real>)
    requires PhonesTimed(ps)
    ensures |m| == |ps|
    ensures forall k :: 0 <= k < |ps| ==> m[k] == Mid(ps[k])
  {
    seq(|ps|, k requires 0 <= k < |ps| => Mid(ps[k]))
  }

  /** A phone belongs to `[beg, end)` when its midpoint lies there.  For a
      phone that sticks out of the interval on one side at most, this is
      the half-duration rule (`HalfDurationRule`). */
  predicate InSpan(p: Phone, beg: real, end: real) {
    p.beg.Some? && p.end.Some? && beg <= Mid(p) < end
  }

  function SpanOf(beg: real, end: real): Phone -> bool {
    p => InSpan(p, beg, end)
  }

  /** The phones that belong to `[beg, end)`, in track order. */
  function PhonesWithin(ps: seq<Phone>, beg: real, end: real): seq<Phone> {
    Filter(ps, SpanOf(beg, end))
  }

  /** An item with the phones of its interval assigned. */
  function WithPhones(w: Item, ps: seq<Phone>): Item
    requires w.Timed()
  {
    w.(phones := Some(PhonesWithin(ps, w.beg.value, w.end.value)))
  }

  /** `after` is `before` with phones assigned to every item, and nothing
      else changed; on a track whose phone midpoints are in order, each item
      gets exactly the phones of its interval. */
  predicate Relinked(before: seq<Item>, after: seq<Item>, ps: seq<Phone>)
    requires ItemsTimed(before) && PhonesTimed(ps)
  {
    && |after| == |before|
    && (forall i :: 0 <= i < |before| ==> after[i] == before[i].(phones := after[i].phones) && after[i].phones.Some?)
    && (Sorted(Midpoints(ps)) ==> forall i :: 0 <= i < |before| ==> after[i] == WithPhones(before[i], ps))
  }

  /** On ordered midpoints, the phones of `[beg, end)` are the contiguous
      run between the two `bisect_left` positions, and none when those
      positions cross. */
  lemma SpanIsSlice(ps: seq<Phone>, beg: real, end: real)
    requires PhonesTimed(ps) && Sorted(Midpoints(ps))
    ensures var m := Midpoints(ps); var lo := CountBelow(m, beg); var hi := CountBelow(m, end);
      PhonesWithin(ps, beg, end) == if lo <= hi then ps[lo..hi] else []
  {
    var m := Midpoints(ps);
    var lo := CountBelow(m, beg);
    var hi := CountBelow(m, end);
    CountBelowSplits(m, beg);
    CountBelowSplits(m, end);
    if lo <= hi {
      forall k | 0 <= k < |ps| ensures SpanOf(beg, end)(ps[k]) <==> lo <= k < hi {
        assert m[k] == Mid(ps[k]);
      }
      FilterIsSlice(ps, SpanOf(beg, end), lo, hi);
    } else {
      forall k | 0 <= k < |ps| ensures !SpanOf(beg, end)(ps[k]) {
        assert m[k] == Mid(ps[k]);
      }
      FilterNone(ps, SpanOf(beg, end));
    }
  }

  /** A phone is assigned to an item exactly when it is one of the track's
      phones and its midpoint lies in the item's interval. */
  lemma PhonesWithinMembers(ps: seq<Phone>, beg: real, end: real, p: Phone)
    ensures p in PhonesWithin(ps, beg, end) <==> p in ps && InSpan(p, beg, end)
  {
    FilterMembers(ps, SpanOf(beg, end), p);
  }

  /** A zero-length or reversed item gets no phones. */
  lemma EmptySpanHasNoPhones(ps: seq<Phone>, beg: real, end: real)
    requires end <= beg
    ensures PhonesWithin(ps, beg, end) == []
  {
    FilterNone(ps, SpanOf(beg, end));
  }

  /** Items that do not overlap never share a phone. */
  lemma DisjointSpansShareNoPhone(ps: seq<Phone>, b1: real, e1: real, b2: real, e2: real, p: Phone)
    requires e1 <= b2
    ensures !(p in PhonesWithin(ps, b1, e1) && p in PhonesWithin(ps, b2, e2))
  {
    PhonesWithinMembers(ps, b1, e1, p);
    PhonesWithinMembers(ps, b2, e2, p);
  }

  /** How much of a timed phone lies inside `[beg, end]`. */
  function Inside(p: Phone, beg: real, end: real): (r: real)
    requires p.beg.Some? && p.end.Some?
    ensures r >= 0.0
  {
    var lo := if p.beg.value < beg then beg else p.beg.value;
    var hi := if p.end.value < end then p.end.value else end;
    if hi < lo then 0.0 else hi - lo
  }

  /** The half-duration rule of `_set_phones`, for a forward phone that
      sticks out of the item on one side at most: the phone is the item's
      when more than half of it lies inside, and is not when less than half
      does. */
  lemma HalfDurationRule(p: Phone, beg: real, end: real)
    requires p.beg.Some? && p.end.Some? && p.beg.value <= p.end.value
    requires beg <= p.beg.value || p.end.value <= end
    ensures 2.0 * Inside(p, beg, end) > p.Dur().value ==> InSpan(p, beg, end)
    ensures 2.0 * Inside(p, beg, end) < p.Dur().value ==> !InSpan(p, beg, end)
  {
  }

  // Querying the log.

  /** A log entry overlaps the open interval `(beg, end)`. */
  predicate Overlaps(e: LogEntry, beg: real, end: real) {
    e.beg.Some? && e.end.Some? && e.end.value > beg && e.beg.value < end
  }

  function OverlapOf(beg: real, end: real): LogEntry -> bool {
    e => Overlaps(e, beg, end)
  }

  /** The log entries overlapping `(beg, end)`, in log order. */
  function Overlapping(log: seq<LogEntry>, beg: real, end: real): seq<LogEntry> {
    Filter(log, OverlapOf(beg, end))
  }

  function Begs(log: seq<LogEntry>): (r: seq<real>)
    requires LogTimed(log)
    ensures |r| == |log| && forall k :: 0 <= k < |log| ==> r[k] == log[k].beg.value
  {
    seq(|log|, k requires 0 <= k < |log| => log[k].beg.value)
  }

  function Ends(log: seq<LogEntry>): (r: seq<real>)
    requires LogTimed(log)
    ensures |r| == |log| && forall k :: 0 <= k < |log| ==> r[k] == log[k].end.value
  {
    seq(|log|, k requires 0 <= k < |log| => log[k].end.value)
  }

  /** With beginnings and ends in order, the overlapping entries are the run
      from the first entry ending after `beg` to the last one beginning
      before `end`. */
  lemma OverlapIsSlice(log: seq<LogEntry>, beg: real, end: real)
    requires LogTimed(log) && Sorted(Begs(log)) && Sorted(Ends(log))
    ensures var lo := CountAtMost(Ends(log), beg); var hi := CountBelow(Begs(log), end);
      Overlapping(log, beg, end) == if lo <= hi then log[lo..hi] else []
  {
    var lo := CountAtMost(Ends(log), beg);
    var hi := CountBelow(Begs(log), end);
    CountAtMostSplits(Ends(log), beg);
    CountBelowSplits(Begs(log), end);
    if lo <= hi {
      forall k | 0 <= k < |log| ensures OverlapOf(beg, end)(log[k]) <==> lo <= k < hi {
        assert Ends(log)[k] == log[k].end.value && Begs(log)[k] == log[k].beg.value;
      }
      FilterIsSlice(log, OverlapOf(beg, end), lo, hi);
    } else {
      forall k | 0 <= k < |log| ensures !OverlapOf(beg, end)(log[k]) {
        assert Ends(log)[k] == log[k].end.value && Begs(log)[k] == log[k].beg.value;
      }
      FilterNone(log, OverlapOf(beg, end));
    }
  }

  /** The interval excludes its boundaries: an entry is returned exactly
      when it ends after `beg` and begins before `end`, so one that only
      touches the interval is not, and a backwards query returns only
      entries spanning both points. */
  lemma OverlappingMembers(log: seq<LogEntry>, beg: real, end: real, e: LogEntry)
    ensures e in Overlapping(log, beg, end) <==> e in log && Overlaps(e, beg, end)
    ensures e in Overlapping(log, beg, end) && end <= beg ==> e.beg.value < end <= beg < e.end.value
  {
    FilterMembers(log, OverlapOf(beg, end), e);
  }

  class Track {
    const name: string
    const phones: seq<Phone>
    const log: seq<LogEntry>
    const txt: seq<string>
    const logBegs: seq<real>
    const logEnds: seq<real>
    var words: seq<Item>
    /** The `_phones` attribute the source's `_set_phones` gives each item,
        by position; no property of an item reads it. */
    var privatePhones: seq<seq<Phone>>

    ghost predicate Valid()
      reads this
    {
      && ItemsTimed(words) && PhonesTimed(phones) && LogTimed(log)
      && logBegs == Begs(log) && logEnds == Ends(log)
    }

    /** `__init__` on records already read: links the phones, then records
        the log's timestamps. */
    constructor (name: string, words: seq<Item>, phones: seq<Phone>, log: seq<LogEntry>, txt: seq<string>)
      requires ItemsTimed(words) && PhonesTimed(phones) && LogTimed(log)
      ensures Valid()
      ensures this.name == name && this.phones == phones && this.log == log && this.txt == txt
      ensures Relinked(words, this.words, phones)
    {
      this.name := name;
      this.phones := phones;
      this.log := log;
      this.txt := txt;
      this.words := words;
      this.privatePhones := [];
      this.logBegs := Begs(log);
      this.logEnds := Ends(log);
      new;
      SetPhones();
    }

    /** `_set_phones`: gives every word and pause the run of phones between
        the `bisect_left` positions of its beginning and end among the
        phone midpoints. */
    method SetPhones()
      requires Valid()
      modifies this`words
      ensures Valid()
      ensures Relinked(old(words), words, phones)
    {
      var mids := Midpoints(phones);
      ghost var before := words;
      var i := 0;
      while i < |words|
        invariant 0 <= i <= |words| == |before|
        invariant ItemsTimed(words) && Valid()
        invariant forall k :: i <= k < |words| ==> words[k] == before[k]
        invariant forall k :: 0 <= k < i ==> words[k] == before[k].(phones := words[k].phones) && words[k].phones.Some?
        invariant Sorted(mids) ==> forall k :: 0 <= k < i ==> words[k] == WithPhones(before[k], phones)
      {
        var w := words[i];
        var left := BisectLeft(mids, w.beg.value);
        var right := BisectLeft(mids, w.end.value);
        var span := if left <= right then phones[left..right] else [];
        if Sorted(mids) {
          SpanIsSlice(phones, w.beg.value, w.end.value);
        }
        words := words[i := w.(phones := Some(span))];
        i := i + 1;
      }
    }

    /** `_set_phones` as the source writes it: each slice goes to the
        item's `_phones` attribute, and every item keeps the `phones` it
        had, so `misaligned` and `syllables` never see the alignment. */
    method SetPhonesAsWritten()
      requires Valid()
      modifies this`privatePhones
      ensures Valid() && words == old(words)
      ensures |privatePhones| == |words|
      ensures Sorted(Midpoints(phones)) ==> forall i :: 0 <= i < |words| ==>
        privatePhones[i] == PhonesWithin(phones, words[i].beg.value, words[i].end.value)
    {
      var mids := Midpoints(phones);
      var attrs: seq<seq<Phone>> := [];
      var i := 0;
      while i < |words|
        invariant 0 <= i <= |words| && |attrs| == i
        invariant Sorted(mids) ==> forall k :: 0 <= k < i ==>
          attrs[k] == PhonesWithin(phones, words[k].beg.value, words[k].end.value)
      {
        var w := words[i];
        var left := BisectLeft(mids, w.beg.value);
        var right := BisectLeft(mids, w.end.value);
        var span := if left <= right then phones[left..right] else [];
        if Sorted(mids) {
          SpanIsSlice(phones, w.beg.value, w.end.value);
        }
        attrs := attrs + [span];
        i := i + 1;
      }
      privatePhones := attrs;
    }

    /** `get_logs`: the entries from the `bisect_right` position of `beg`
        among the ends to the `bisect_left` position of `end` among the
        beginnings. */
    method GetLogs(beg: real, end: real) returns (r: seq<LogEntry>)
      requires Valid()
      ensures Sorted(logBegs) && Sorted(logEnds) ==> r == Overlapping(log, beg, end)
    {
      var left := BisectRight(logEnds, beg);
      var right := BisectLeft(logBegs, end);
      r := if left <= right then log[left..right] else [];
      if Sorted(logBegs) && Sorted(logEnds) {
        OverlapIsSlice(log, beg, end);
      }
    }
  }

  /** A word `a` over `[0, 1)` transcribed `ah`, as a reader yields it:
      no phones assigned. */
  const UNLINKED_WORD: Item := Word("a", Some(0.0), Some(1.0), Some(["ah"]), Some(["ah"]), None, None)

  /** One phone `b` over the same interval. */
  const STRAY_PHONE: Phone := Phone(Some("b"), Some(0.0), Some(1.0))

  /** The two versions of `_set_phones` disagree on `UNLINKED_WORD` and
      `STRAY_PHONE`.  As written, the word keeps no phones, so it is not
      misaligned and `syllables(True)` counts the one nucleus of
      `phonetic`.  Linked as `SetPhones` links it, the word holds the
      phone `b`, which does not match `ah`, so it is misaligned and has no
      syllable. */
  lemma SetPhonesDiscrepancy(after: seq<Item>)
    requires Relinked([UNLINKED_WORD], after, [STRAY_PHONE])
    ensures !UNLINKED_WORD.Misaligned() && UNLINKED_WORD.Syllables(true) == Some(1)
    ensures after[0].Misaligned() && after[0].Syllables(true) == Some(0)
  {
  }

  /** With `_set_phones` as written, every item a `.words` file yields
      keeps the empty `phones` it was read with, so its `misaligned` is only
      a negative duration and `syllables(True)` counts `phonetic`. */
  lemma ReadItemsUnlinked(lines: seq<Line>, parseFloat: string -> Option<real>)
    ensures forall k :: 0 <= k < |Words(lines, parseFloat).records| ==>
      && Words(lines, parseFloat).records[k].phones.None?
      && (Words(lines, parseFloat).records[k].Misaligned() <==> Words(lines, parseFloat).records[k].NegativeDur())
      && (Words(lines, parseFloat).records[k].Word? ==>
            Words(lines, parseFloat).records[k].Transcription(true) == Lift(Words(lines, parseFloat).records[k].phonetic))
  {
  }

  /** Every record a reader yields has both timestamps. */
  lemma ReadRecordsTimed(wordLines: seq<Line>, phoneLines: seq<Line>, logLines: seq<Line>,
                         parseFloat: string -> Option<real>)
    ensures ItemsTimed(Words(wordLines, parseFloat).records)
    ensures PhonesTimed(Phones(phoneLines, parseFloat).records)
    ensures LogTimed(Logs(logLines, parseFloat).records)
  {
    WordsTimed(wordLines, parseFloat);
    PhonesAreTimed(phoneLines, parseFloat);
    LogsAreTimed(logLines, parseFloat);
  }

  lemma WordsTimed(lines: seq<Line>, parseFloat: string -> Option<real>)
    ensures ItemsTimed(Words(lines, parseFloat).records)
  {
    WordsShape(lines, parseFloat);
  }

  lemma PhonesAreTimed(lines: seq<Line>, parseFloat: string -> Option<real>)
    ensures PhonesTimed(Phones(lines, parseFloat).records)
  {
    PhonesShape(lines, parseFloat);
  }

  lemma LogsAreTimed(lines: seq<Line>, parseFloat: string -> Option<real>)
    ensures LogTimed(Logs(lines, parseFloat).records)
  {
    LogsShape(lines, parseFloat);
  }

  /** A track read from its files: the `.words`, `.phones` and `.log`
      readers run in that order, and the first exception stops the
      construction. */
  method Load(name: string, wordLines: seq<Line>, phoneLines: seq<Line>, logLines: seq<Line>,
              txt: seq<string>, parseFloat: string -> Option<real>)
    returns (r: Result<Track, ParseError>)
    ensures var w := Words(wordLines, parseFloat); var p := Phones(phoneLines, parseFloat);
      var l := Logs(logLines, parseFloat);
      && (r.Failure? <==> w.error.Some? || p.error.Some? || l.error.Some?)
      && (r.Failure? ==> r.error == (if w.error.Some? then w.error.value
                                     else if p.error.Some? then p.error.value
                                     else l.error.value))
      && (r.Success? ==>
            && fresh(r.value) && r.value.Valid()
            && r.value.name == name && r.value.txt == txt
            && r.value.phones == p.records && r.value.log == l.records
            && ItemsTimed(w.records) && Relinked(w.records, r.value.words, p.records))
  {
    var words := ProcessWords(wordLines, parseFloat);
    if words.error.Some? {
      return Failure(words.error.value);
    }
    var phones := ProcessPhones(phoneLines, parseFloat);
    if phones.error.Some? {
      return Failure(phones.error.value);
    }
    var log := ProcessLogs(logLines, parseFloat);
    if log.error.Some? {
      return Failure(log.error.value);
    }
    ReadRecordsTimed(wordLines, phoneLines, logLines, parseFloat);
    var t := new Track(name, words.records, phones.records, log.records, txt);
    return Success(t);
  }
}
