/** The record types of the corpus: phones, log entries, and the items of a
    `.words` file (words and pauses).  Every field except a word's or
    pause's `phones` is fixed at construction; `phones` is assigned by the
    track aligner. */
module Containers {
  import opened Wrappers

  /** The segments counted as syllable nuclei. */
  const SYLLABIC: set<string> :=
    {"aa", "ae", "ay", "aw", "ao", "oy", "ow", "eh", "ey", "ah", "uw",
     "uh", "ih", "iy", "er", "el", "em", "en", "eng", "aan", "aen",
     "ayn", "awn", "aon", "oyn", "own", "ehn", "eyn", "ahn", "uwn",
     "uhn", "ihn", "iyn"}

  /** What a caller may pass as a timestamp: a number, a piece of text, or
      nothing at all. */
  datatype Value = Number(x: real) | Text(s: string) | NoValue

  /** The `try: float(v) except (TypeError, ValueError): None` coercion of the
      constructors; `parseFloat` stands for `float()` on a string. */
  function ToFloat(v: Value, parseFloat: string -> Option<real>): Option<real> {
    match v
    case Number(x) => Some(x)
    case Text(s) => parseFloat(s)
    case NoValue => None
  }

  /** The `dur` property shared by all records: `end - beg`, or None when
      either timestamp is missing. */
  function Duration(beg: Option<real>, end: Option<real>): (d: Option<real>)
    ensures d.Some? <==> beg.Some? && end.Some?
    ensures d.Some? ==> beg.value + d.value == end.value
  {
    if beg.Some? && end.Some? then Some(end.value - beg.value) else None
  }

  datatype Phone = Phone(seg: Option<string>, beg: Option<real>, end: Option<real>) {
    function Dur(): Option<real> { Duration(beg, end) }
  }

  datatype LogEntry = LogEntry(entry: Option<string>, beg: Option<real>, end: Option<real>) {
    function Dur(): Option<real> { Duration(beg, end) }
  }

  /** A `.words` entry: a word with its transcriptions, or a pause. */
  datatype Item =
    | Word(orthography: string, beg: Option<real>, end: Option<real>,
           phonemic: Option<seq<string>>, phonetic: Option<seq<string>>,
           pos: Option<string>, phones: Option<seq<Phone>>)
    | Pause(entry: Option<string>, beg: Option<real>, end: Option<real>,
            phones: Option<seq<Phone>>)
  {
    function Dur(): Option<real> { Duration(beg, end) }

    predicate Timed() { beg.Some? && end.Some? }

    predicate NegativeDur() { Dur().Some? && Dur().value < 0.0 }

    /** `misaligned`: a negative duration, or (for a word) assigned phones
        that cannot be checked against, or do not match, `phonetic`. */
    predicate Misaligned() {
      if NegativeDur() then true
      else match this
        case Pause(_, _, _, _) => false
        case Word(_, _, _, _, phonetic, _, phones) =>
          if phones.None? then false
          else if phonetic.None? then true
          else if |phones.value| != |phonetic.value| then true
          else !SegsMatch(phones.value, phonetic.value)
    }

    /** The transcription `syllables(phonetic)` counts in: the assigned
        phones' segments, else `phonetic`, when `usePhonetic`; otherwise
        `phonemic`. */
    function Transcription(usePhonetic: bool): Option<seq<Option<string>>>
      requires Word?
    {
      if usePhonetic then
        if phones.Some? then Some(Segs(phones.value)) else Lift(phonetic)
      else Lift(phonemic)
    }

    /** `syllables(phonetic)`: how many segments of the chosen transcription
        are syllabic; None when that transcription is missing. */
    function Syllables(usePhonetic: bool): (r: Option<nat>)
      requires Word?
      ensures r.None? <==> Transcription(usePhonetic).None?
      ensures r.Some? ==> r.value <= |Transcription(usePhonetic).value|
    {
      match Transcription(usePhonetic)
      case None => None
      case Some(t) => Some(CountSyllabic(t))
    }
  }

  /** The `for i, j in zip(phones, phonetic): if i.seg != j` scan: true when
      no position of the shorter list disagrees. */
  predicate SegsMatch(ps: seq<Phone>, ts: seq<string>) {
    if ps == [] || ts == [] then true
    else ps[0].seg == Some(ts[0]) && SegsMatch(ps[1..], ts[1..])
  }

  function Segs(ps: seq<Phone>): (r: seq<Option<string>>)
    ensures |r| == |ps|
    ensures forall k :: 0 <= k < |ps| ==> r[k] == ps[k].seg
  {
    seq(|ps|, k requires 0 <= k < |ps| => ps[k].seg)
  }

  function Lift(t: Option<seq<string>>): (r: Option<seq<Option<string>>>)
    ensures r.None? <==> t.None?
    ensures r.Some? ==> |r.value| == |t.value| && forall k :: 0 <= k < |t.value| ==> r.value[k] == Some(t.value[k])
  {
    match t
    case None => None
    case Some(s) => Some(seq(|s|, k requires 0 <= k < |s| => Some(s[k])))
  }

  predicate IsSyllabic(seg: Option<string>) {
    seg.Some? && seg.value in SYLLABIC
  }

  /** `sum(1 for seg in transcription if seg in SYLLABIC)`. */
  function CountSyllabic(t: seq<Option<string>>): (n: nat)
    ensures n <= |t|
  {
    if t == [] then 0
    else CountSyllabic(t[..|t| - 1]) + (if IsSyllabic(t[|t| - 1]) then 1 else 0)
  }

  /** The positions of `t` that hold a syllabic segment. */
  function SyllabicPositions(t: seq<Option<string>>): set<nat> {
    set k: nat | k < |t| && IsSyllabic(t[k])
  }

  // Constructors, with the timestamp coercion of `__init__`.

  function NewWord(orthography: string, beg: Value, end: Value,
                   phonemic: Option<seq<string>>, phonetic: Option<seq<string>>,
                   pos: Option<string>, parseFloat: string -> Option<real>): Item
  {
    Word(orthography, ToFloat(beg, parseFloat), ToFloat(end, parseFloat), phonemic, phonetic, pos, None)
  }

  function NewPause(entry: Option<string>, beg: Value, end: Value,
                    parseFloat: string -> Option<real>): Item
  {
    Pause(entry, ToFloat(beg, parseFloat), ToFloat(end, parseFloat), None)
  }

  function NewPhone(seg: Option<string>, beg: Value, end: Value,
                    parseFloat: string -> Option<real>): Phone
  {
    Phone(seg, ToFloat(beg, parseFloat), ToFloat(end, parseFloat))
  }

  function NewLogEntry(entry: Option<string>, beg: Value, end: Value,
                       parseFloat: string -> Option<real>): LogEntry
  {
    LogEntry(entry, ToFloat(beg, parseFloat), ToFloat(end, parseFloat))
  }

  // Properties.

  /** A timestamp is stored as None exactly when it is missing or is text
      that does not parse as a number; `dur` is then None too. */
  lemma TimestampCoercion(orthography: string, beg: Value, end: Value,
                          phonemic: Option<seq<string>>, phonetic: Option<seq<string>>,
                          pos: Option<string>, parseFloat: string -> Option<real>)
    ensures var w := NewWord(orthography, beg, end, phonemic, phonetic, pos, parseFloat);
      && (w.beg.None? <==> beg.NoValue? || (beg.Text? && parseFloat(beg.s).None?))
      && (beg.Number? ==> w.beg == Some(beg.x))
      && (w.Dur().None? <==> w.beg.None? || w.end.None?)
      && (w.Dur().Some? ==> w.Dur().value == w.end.value - w.beg.value)
      && w.phones.None?
      && (w.Misaligned() <==> w.NegativeDur())
  {
  }

  /** Assigning `phones` leaves every other field as it was. */
  lemma OnlyPhonesAssignable(x: Item, ps: Option<seq<Phone>>)
    ensures var y := x.(phones := ps);
      && y.phones == ps && y.beg == x.beg && y.end == x.end && y.Dur() == x.Dur()
      && (y.Word? <==> x.Word?)
      && (x.Word? ==> y.orthography == x.orthography && y.phonemic == x.phonemic
                      && y.phonetic == x.phonetic && y.pos == x.pos)
      && (x.Pause? ==> y.entry == x.entry)
  {
  }

  lemma {:induction false} SegsMatchAll(ps: seq<Phone>, ts: seq<string>)
    requires |ps| == |ts|
    ensures SegsMatch(ps, ts) <==> forall k :: 0 <= k < |ps| ==> ps[k].seg == Some(ts[k])
  {
    if ps != [] {
      SegsMatchAll(ps[1..], ts[1..]);
      assert forall k :: 1 <= k < |ps| ==> ps[1..][k - 1] == ps[k] && ts[1..][k - 1] == ts[k];
    }
  }

  /** A word is misaligned exactly when its duration is negative, or phones
      are assigned and `phonetic` is missing, of another length, or differs
      from them at some position. */
  lemma WordMisaligned(w: Item)
    requires w.Word?
    ensures w.Misaligned() <==>
      || w.NegativeDur()
      || (w.phones.Some? &&
          (|| w.phonetic.None?
           || |w.phones.value| != |w.phonetic.value|
           || exists k :: 0 <= k < |w.phones.value| && w.phones.value[k].seg != Some(w.phonetic.value[k])))
  {
    if w.phones.Some? && w.phonetic.Some? && |w.phones.value| == |w.phonetic.value| {
      SegsMatchAll(w.phones.value, w.phonetic.value);
    }
  }

  /** A negative duration makes an item misaligned whatever its phones. */
  lemma NegativeDurationMisaligned(x: Item, ps: Option<seq<Phone>>)
    requires x.NegativeDur()
    ensures x.(phones := ps).Misaligned()
  {
  }

  /** A zero-length item with no phones is not misaligned. */
  lemma ZeroDurationAligned(x: Item)
    requires x.Dur() == Some(0.0) && x.phones.None?
    ensures !x.Misaligned()
  {
  }

  /** A pause is misaligned exactly when its duration is negative; assigning
      phones never changes that. */
  lemma PauseMisaligned(p: Item, ps: Option<seq<Phone>>)
    requires p.Pause?
    ensures p.Misaligned() <==> p.NegativeDur()
    ensures p.(phones := ps).Misaligned() == p.Misaligned()
  {
  }

  /** The syllable count is the number of syllabic positions of the
      transcription. */
  lemma {:induction false} CountSyllabicPositions(t: seq<Option<string>>)
    ensures CountSyllabic(t) == |SyllabicPositions(t)|
  {
    if t != [] {
      var init := t[..|t| - 1];
      CountSyllabicPositions(init);
      var last := |t| - 1;
      assert forall k: nat :: k < last ==> t[k] == init[k];
      if IsSyllabic(t[last]) {
        assert SyllabicPositions(t) == SyllabicPositions(init) + {last};
      } else {
        assert SyllabicPositions(t) == SyllabicPositions(init);
      }
    }
  }

  /** Which transcription `syllables` reads: `phones` (then `phonetic`) when
      asked for the phonetic count, `phonemic` otherwise; the count is
      defined exactly when that transcription is. */
  lemma SyllableSource(w: Item, usePhonetic: bool)
    requires w.Word?
    ensures !usePhonetic ==> (w.Syllables(false).None? <==> w.phonemic.None?)
    ensures usePhonetic && w.phones.Some? ==> w.Syllables(true) == Some(CountSyllabic(Segs(w.phones.value)))
    ensures usePhonetic && w.phones.None? ==> (w.Syllables(true).None? <==> w.phonetic.None?)
    ensures w.Syllables(usePhonetic).Some? ==>
      w.Syllables(usePhonetic).value == |SyllabicPositions(w.Transcription(usePhonetic).value)|
  {
    if w.Transcription(usePhonetic).Some? {
      CountSyllabicPositions(w.Transcription(usePhonetic).value);
    }
  }
}
