/** The readers of the corpus's `.log`, `.phones` and `.words` files.

    A file is the list of lines its `readline()` calls return before the
    empty string that marks the end of the file; every such line is
    non-empty.  A reader is a generator: its run is what it yielded before
    it stopped, together with the exception that stopped it, if any. */
module Parsers {
  import opened Wrappers
  import opened PyText
  import opened Containers
  import opened Seqs

  /** A line as `readline()` returns it before the end of the file. */
  type Line = s: string | |s| > 0 witness "\n"

  /** The exceptions a reader can raise: `EOFError` for a missing header,
      `ValueError` for an entry with too few fields or for a timestamp that
      `float()` rejects, `UnboundLocalError` for a `.words` entry with an
      unsupported number of fields before any entry has been read. */
  datatype ParseError = MissingHeader | MalformedEntry | BadTimestamp | UnboundLabel

  datatype Parsed<T> = Parsed(records: seq<T>, error: Option<ParseError>)

  /** An entry's label with the interval the reader gives it: from the
      previous entry's timestamp to its own. */
  datatype Stamped<L> = Stamped(content: L, beg: real, end: real)

  /** What one line after the header amounts to. */
  datatype Outcome<L> = Blank | Entry(time: string, content: L) | Broken(error: ParseError)

  /** The position of the line that closes the header: the first line
      starting with `#`. */
  function HeaderEnd(lines: seq<Line>): (h: Option<nat>)
    ensures h.Some? ==> h.value < |lines| && StartsWith(lines[h.value], "#")
    ensures h.Some? ==> forall k :: 0 <= k < h.value ==> !StartsWith(lines[k], "#")
    ensures h.None? ==> forall k :: 0 <= k < |lines| ==> !StartsWith(lines[k], "#")
  {
    if lines == [] then None
    else if StartsWith(lines[0], "#") then Some(0)
    else match HeaderEnd(lines[1..])
      case None => None
      case Some(i) => Some(i + 1)
  }

  /** The outcome of every line after the header.  `decode` sees the state
      the previous outcomes left (the loop variables that survive from one
      entry to the next) and `next` updates it. */
  function Outcomes<S, L>(body: seq<Line>, state: S, decode: (Line, S) -> Outcome<L>,
                          next: (Outcome<L>, S) -> S): (os: seq<Outcome<L>>)
    ensures |os| == |body|
  {
    if body == [] then []
    else
      var o := decode(body[0], state);
      [o] + Outcomes(body[1..], next(o, state), decode, next)
  }

  /** The entry loop: blank outcomes are skipped, a broken one or an
      unparsable timestamp stops the run, and each entry is stamped from
      `previous` to its own timestamp, which becomes the next `previous`. */
  function Chain<L>(os: seq<Outcome<L>>, previous: real, parseFloat: string -> Option<real>): Parsed<Stamped<L>>
    decreases |os|
  {
    if os == [] then Parsed([], None)
    else match os[0]
      case Blank => Chain(os[1..], previous, parseFloat)
      case Broken(e) => Parsed([], Some(e))
      case Entry(t, l) =>
        match parseFloat(t)
        case None => Parsed([], Some(BadTimestamp))
        case Some(x) =>
          var rest := Chain(os[1..], x, parseFloat);
          Parsed([Stamped(l, previous, x)] + rest.records, rest.error)
  }

  function MapRecords<L, T>(s: seq<Stamped<L>>, make: Stamped<L> -> T): (r: seq<T>)
    ensures |r| == |s|
    ensures forall k :: 0 <= k < |s| ==> r[k] == make(s[k])
  {
    if s == [] then [] else [make(s[0])] + MapRecords(s[1..], make)
  }

  /** The run of a reader that has already yielded `done`. */
  function Extend<L, T>(done: seq<T>, c: Parsed<Stamped<L>>, make: Stamped<L> -> T): Parsed<T> {
    Parsed(done + MapRecords(c.records, make), c.error)
  }

  /** The stamped entries of a whole run: the header is skipped, and its
      absence raises `EOFError`. */
  function Stamps<S, L>(lines: seq<Line>, initial: S, decode: (Line, S) -> Outcome<L>,
                        next: (Outcome<L>, S) -> S, parseFloat: string -> Option<real>): Parsed<Stamped<L>>
  {
    match HeaderEnd(lines)
    case None => Parsed([], Some(MissingHeader))
    case Some(h) => Chain(Outcomes(lines[h + 1..], initial, decode, next), 0.0, parseFloat)
  }

  /** A whole run, each stamped entry made into a record. */
  function Run<S, L, T>(lines: seq<Line>, initial: S, decode: (Line, S) -> Outcome<L>,
                        next: (Outcome<L>, S) -> S, make: Stamped<L> -> T,
                        parseFloat: string -> Option<real>): Parsed<T>
  {
    Extend([], Stamps(lines, initial, decode, next, parseFloat), make)
  }

  /** The readers of `.log` and `.phones` files carry nothing from one entry
      to the next. */
  function Stateless<L>(decode: Line -> Outcome<L>): (Line, ()) -> Outcome<L> {
    (l: Line, u: ()) => decode(l)
  }

  function Keep<L>(o: Outcome<L>, u: ()): () {
    u
  }

  /** The lines after the header's closing line. */
  function Body(lines: seq<Line>): seq<Line> {
    match HeaderEnd(lines)
    case None => []
    case Some(h) => lines[h + 1..]
  }

  predicate NotBlankLine(l: Line) {
    l != "\n"
  }

  /** The lines that are not a lone newline. */
  function NonBlank(body: seq<Line>): seq<Line> {
    Filter(body, NotBlankLine)
  }

  predicate IsEntry<L>(o: Outcome<L>) {
    o.Entry?
  }

  /** The entry outcomes, in order. */
  function Entries<L>(os: seq<Outcome<L>>): seq<Outcome<L>> {
    Filter(os, IsEntry)
  }

  /** An outcome the entry loop gets past. */
  predicate Fine<L>(o: Outcome<L>, parseFloat: string -> Option<real>) {
    !o.Broken? && (o.Entry? ==> parseFloat(o.time).Some?)
  }

  // .log files

  /** One `.log` line: time, color and the stripped rest; with only two
      fields, an entry without a label; a lone newline is skipped. */
  function LogLine(line: Line): Outcome<Option<string>> {
    var parts := SplitMax2(line);
    if |parts| == 3 then Entry(parts[0], Some(Strip(parts[2])))
    else if line == "\n" then Blank
    else
      var tokens := Split(line);
      if |tokens| == 2 then Entry(tokens[0], None) else Broken(MalformedEntry)
  }

  function LogMaker(parseFloat: string -> Option<real>): Stamped<Option<string>> -> LogEntry {
    (st: Stamped<Option<string>>) => NewLogEntry(st.content, Number(st.beg), Number(st.end), parseFloat)
  }

  function Logs(lines: seq<Line>, parseFloat: string -> Option<real>): Parsed<LogEntry> {
    Run(lines, (), Stateless(LogLine), Keep, LogMaker(parseFloat), parseFloat)
  }

  // .phones files

  /** The segment label as the reader cleans it: every `+1` removed, only
      what precedes the first `;` kept, surrounding whitespace stripped. */
  function PhoneLabel(s: string): string {
    var noPlus := if Contains(s, "+1") then RemoveAll(s, "+1") else s;
    var beforeSemicolon := if ';' in noPlus then SplitOn(noPlus, ';')[0] else noPlus;
    Strip(beforeSemicolon)
  }

  function PhoneLine(line: Line): Outcome<Option<string>> {
    var parts := SplitMax2(line);
    if |parts| == 3 then Entry(parts[0], Some(PhoneLabel(parts[2])))
    else if line == "\n" then Blank
    else
      var tokens := Split(line);
      if |tokens| == 2 then Entry(tokens[0], None) else Broken(MalformedEntry)
  }

  function PhoneMaker(parseFloat: string -> Option<real>): Stamped<Option<string>> -> Phone {
    (st: Stamped<Option<string>>) => NewPhone(st.content, Number(st.beg), Number(st.end), parseFloat)
  }

  function Phones(lines: seq<Line>, parseFloat: string -> Option<real>): Parsed<Phone> {
    Run(lines, (), Stateless(PhoneLine), Keep, PhoneMaker(parseFloat), parseFloat)
  }

  // .words files

  /** The fields of a `.words` entry: the first still holds time, color and
      label. */
  datatype WordFields = WordFields(word: string, phonemic: Option<seq<string>>,
                                   phonetic: Option<seq<string>>, pos: string)

  /** The loop variables `word`, `phonemic` and `pos` as the previous entry
      left them. */
  datatype Bound = Bound(word: string, phonemic: Option<seq<string>>, pos: string)

  datatype Unpacked = Skipped | Unbound | Unpacked(fields: WordFields)

  /** The stripped `;`-separated fields of the stripped line. */
  function Fields(line: string): (fs: seq<string>)
    ensures |fs| == |SplitOn(Strip(line), ';')|
  {
    var pieces := SplitOn(Strip(line), ';');
    seq(|pieces|, k requires 0 <= k < |pieces| => Strip(pieces[k]))
  }

  /** The field unpacking: four fields in full; otherwise a lone newline is
      skipped, two fields lack both transcriptions, three lack the phonetic
      one, and any other count leaves `word`, `phonemic` and `pos` as the
      previous entry bound them (unbound before the first entry). */
  function Unpack(line: Line, bound: Option<Bound>): Unpacked {
    var fs := Fields(line);
    if |fs| == 4 then Unpacked(WordFields(fs[0], Some(Split(fs[1])), Some(Split(fs[2])), fs[3]))
    else if line == "\n" then Skipped
    else if |fs| == 2 then Unpacked(WordFields(fs[0], None, None, fs[1]))
    else if |fs| == 3 then Unpacked(WordFields(fs[0], Some(Split(fs[1])), None, fs[2]))
    else if bound.None? then Unbound
    else Unpacked(WordFields(bound.value.word, bound.value.phonemic, None, bound.value.pos))
  }

  /** One `.words` line: the first field must split into time, color and
      label. */
  function WordLine(line: Line, bound: Option<Bound>): Outcome<WordFields> {
    match Unpack(line, bound)
    case Skipped => Blank
    case Unbound => Broken(UnboundLabel)
    case Unpacked(f) =>
      var parts := SplitMax2(f.word);
      if |parts| != 3 then Broken(MalformedEntry)
      else Entry(Strip(parts[0]), f.(word := Strip(parts[2])))
  }

  function NextBound(o: Outcome<WordFields>, bound: Option<Bound>): Option<Bound> {
    if o.Entry? then Some(Bound(o.content.word, o.content.phonemic, o.content.pos)) else bound
  }

  /** Labels opening with `<` or `{` are pauses; every other entry is a
      word. */
  predicate IsPauseLabel(w: string) {
    StartsWith(w, "<") || StartsWith(w, "{")
  }

  function WordMaker(parseFloat: string -> Option<real>): Stamped<WordFields> -> Item {
    (st: Stamped<WordFields>) =>
      if IsPauseLabel(st.content.word)
      then NewPause(Some(st.content.word), Number(st.beg), Number(st.end), parseFloat)
      else NewWord(st.content.word, Number(st.beg), Number(st.end),
                   st.content.phonemic, st.content.phonetic, Some(st.content.pos), parseFloat)
  }

  function Words(lines: seq<Line>, parseFloat: string -> Option<real>): Parsed<Item> {
    Run(lines, None, WordLine, NextBound, WordMaker(parseFloat), parseFloat)
  }

  // The readers.

  /** The header loop: reads until a line starts with `#`. */
  method FindHeader(lines: seq<Line>) returns (h: Option<nat>)
    ensures h == HeaderEnd(lines)
  {
    var i := 0;
    while !(i < |lines| && StartsWith(lines[i], "#"))
      invariant 0 <= i <= |lines|
      invariant forall k :: 0 <= k < i ==> !StartsWith(lines[k], "#")
      decreases |lines| - i
    {
      if i == |lines| {
        return None;
      }
      i := i + 1;
    }
    return Some(i);
  }

  /** The entry loop of every reader. */
  method ReadEntries<S, L, T>(lines: seq<Line>, start: nat, initial: S, decode: (Line, S) -> Outcome<L>,
                              next: (Outcome<L>, S) -> S, make: Stamped<L> -> T,
                              parseFloat: string -> Option<real>)
    returns (r: Parsed<T>)
    requires start <= |lines|
    ensures r == Extend([], Chain(Outcomes(lines[start..], initial, decode, next), 0.0, parseFloat), make)
  {
    var i := start;
    var state := initial;
    var previous := 0.0;
    var records: seq<T> := [];
    while i < |lines|
      invariant start <= i <= |lines|
      invariant Extend([], Chain(Outcomes(lines[start..], initial, decode, next), 0.0, parseFloat), make)
             == Extend(records, Chain(Outcomes(lines[i..], state, decode, next), previous, parseFloat), make)
    {
      var o := decode(lines[i], state);
      ghost var os := Outcomes(lines[i..], state, decode, next);
      assert lines[i..][1..] == lines[i + 1..];
      assert os[0] == o;
      assert os[1..] == Outcomes(lines[i + 1..], next(o, state), decode, next);
      match o {
        case Blank =>
          assert Chain(os, previous, parseFloat) == Chain(os[1..], previous, parseFloat);
        case Broken(e) =>
          return Parsed(records, Some(e));
        case Entry(t, l) =>
          match parseFloat(t) {
            case None =>
              return Parsed(records, Some(BadTimestamp));
            case Some(x) =>
              var st := Stamped(l, previous, x);
              ghost var rest := Chain(os[1..], x, parseFloat);
              assert Chain(os, previous, parseFloat) == Parsed([st] + rest.records, rest.error);
              assert ([st] + rest.records)[1..] == rest.records;
              assert records + MapRecords([st] + rest.records, make)
                  == (records + [make(st)]) + MapRecords(rest.records, make);
              records := records + [make(st)];
              previous := x;
          }
      }
      state := next(o, state);
      i := i + 1;
    }
    return Parsed(records, None);
  }

  /** `process_logs`. */
  method ProcessLogs(lines: seq<Line>, parseFloat: string -> Option<real>) returns (r: Parsed<LogEntry>)
    ensures r == Logs(lines, parseFloat)
  {
    var h := FindHeader(lines);
    if h.None? {
      return Parsed([], Some(MissingHeader));
    }
    r := ReadEntries(lines, h.value + 1, (), Stateless(LogLine), Keep, LogMaker(parseFloat), parseFloat);
  }

  /** `process_phones`. */
  method ProcessPhones(lines: seq<Line>, parseFloat: string -> Option<real>) returns (r: Parsed<Phone>)
    ensures r == Phones(lines, parseFloat)
  {
    var h := FindHeader(lines);
    if h.None? {
      return Parsed([], Some(MissingHeader));
    }
    r := ReadEntries(lines, h.value + 1, (), Stateless(PhoneLine), Keep, PhoneMaker(parseFloat), parseFloat);
  }

  /** `process_words`: its entry loop also carries the variables a line with
      an unsupported number of fields falls back on. */
  method ProcessWords(lines: seq<Line>, parseFloat: string -> Option<real>) returns (r: Parsed<Item>)
    ensures r == Words(lines, parseFloat)
  {
    var h := FindHeader(lines);
    if h.None? {
      return Parsed([], Some(MissingHeader));
    }
    r := ReadEntries(lines, h.value + 1, None, WordLine, NextBound, WordMaker(parseFloat), parseFloat);
  }

  // Properties of the entry loop.

  /** The first record begins at `previous`, and each later one where the
      one before it ended. */
  predicate Linked<L>(r: seq<Stamped<L>>, previous: real) {
    && (r != [] ==> r[0].beg == previous)
    && forall k {:trigger r[k].beg} :: 0 < k < |r| ==> r[k].beg == r[k - 1].end
  }

  lemma {:induction false} ChainLinks<L>(os: seq<Outcome<L>>, previous: real, parseFloat: string -> Option<real>)
    ensures Linked(Chain(os, previous, parseFloat).records, previous)
    decreases |os|
  {
    if os != [] {
      match os[0]
      case Blank =>
        ChainLinks(os[1..], previous, parseFloat);
      case Broken(_) =>
      case Entry(t, l) =>
        match parseFloat(t)
        case None =>
        case Some(x) =>
          ChainLinks(os[1..], x, parseFloat);
          var rest := Chain(os[1..], x, parseFloat).records;
          var r := Chain(os, previous, parseFloat).records;
          assert r == [Stamped(l, previous, x)] + rest;
          forall k | 1 <= k < |r| ensures r[k].beg == r[k - 1].end {
            assert r[k] == rest[k - 1];
            if k >= 2 {
              assert r[k - 1] == rest[k - 2];
            }
          }
    }
  }

  /** A run ends without an exception exactly when no line is broken and
      every entry's timestamp parses. */
  lemma {:induction false} ChainSucceedsIff<L>(os: seq<Outcome<L>>, previous: real, parseFloat: string -> Option<real>)
    ensures Chain(os, previous, parseFloat).error.None? <==> forall k :: 0 <= k < |os| ==> Fine(os[k], parseFloat)
    decreases |os|
  {
    if os != [] {
      assert forall k :: 1 <= k < |os| ==> os[1..][k - 1] == os[k];
      match os[0]
      case Blank =>
        ChainSucceedsIff(os[1..], previous, parseFloat);
      case Broken(_) =>
      case Entry(t, l) =>
        match parseFloat(t)
        case None =>
        case Some(x) => ChainSucceedsIff(os[1..], x, parseFloat);
    }
  }

  /** The records are the entries in order: the k-th record carries the
      k-th entry's content and ends at its parsed timestamp; a run without an
      exception yields one record per entry. */
  lemma {:induction false} ChainFollowsEntries<L>(os: seq<Outcome<L>>, previous: real, parseFloat: string -> Option<real>)
    ensures var c := Chain(os, previous, parseFloat); var e := Entries(os);
      && |c.records| <= |e|
      && (c.error.None? ==> |c.records| == |e|)
      && forall k :: 0 <= k < |c.records| ==>
           c.records[k].content == e[k].content && parseFloat(e[k].time) == Some(c.records[k].end)
    decreases |os|
  {
    if os != [] {
      EntriesCons(os);
      match os[0]
      case Blank =>
        assert Entries(os) == Entries(os[1..]);
        assert Chain(os, previous, parseFloat) == Chain(os[1..], previous, parseFloat);
        ChainFollowsEntries(os[1..], previous, parseFloat);
      case Broken(_) =>
        assert Chain(os, previous, parseFloat).records == [];
      case Entry(t, l) =>
        match parseFloat(t)
        case None =>
          assert Chain(os, previous, parseFloat).records == [];
        case Some(x) =>
          ChainFollowsEntries(os[1..], x, parseFloat);
          var c' := Chain(os[1..], x, parseFloat);
          var rest := c'.records;
          var r := Chain(os, previous, parseFloat).records;
          var e := Entries(os);
          var e' := Entries(os[1..]);
          assert Chain(os, previous, parseFloat) == Parsed([Stamped(l, previous, x)] + rest, c'.error);
          assert e == [os[0]] + e';
          forall k | 1 <= k < |r|
            ensures r[k].content == e[k].content && parseFloat(e[k].time) == Some(r[k].end)
          {
            assert r[k] == rest[k - 1];
            assert e[k] == e'[k - 1];
          }
    }
  }

  lemma EntriesCons<L>(os: seq<Outcome<L>>)
    requires os != []
    ensures Entries(os) == (if os[0].Entry? then [os[0]] else []) + Entries(os[1..])
  {
    assert os == [os[0]] + os[1..];
    FilterCons(os[0], os[1..], IsEntry);
  }

  /** The loop raises nothing but what a broken line or a bad timestamp
      raises. */
  lemma {:induction false} ChainErrorOrigin<L>(os: seq<Outcome<L>>, previous: real,
                                              parseFloat: string -> Option<real>, e: ParseError)
    requires e != BadTimestamp
    requires forall k :: 0 <= k < |os| ==> os[k] != Broken(e)
    ensures Chain(os, previous, parseFloat).error != Some(e)
    decreases |os|
  {
    if os != [] {
      assert forall k :: 1 <= k < |os| ==> os[1..][k - 1] == os[k];
      match os[0]
      case Blank =>
        ChainErrorOrigin(os[1..], previous, parseFloat, e);
      case Broken(_) =>
      case Entry(t, l) =>
        match parseFloat(t)
        case None =>
        case Some(x) => ChainErrorOrigin(os[1..], x, parseFloat, e);
    }
  }

  /** When exactly the lone-newline lines are blank, a run without an
      exception yields one record per other line. */
  lemma ChainCount<L>(os: seq<Outcome<L>>, body: seq<Line>, previous: real, parseFloat: string -> Option<real>)
    requires |os| == |body|
    requires forall k :: 0 <= k < |os| ==> (os[k].Blank? <==> body[k] == "\n")
    requires Chain(os, previous, parseFloat).error.None?
    ensures |Chain(os, previous, parseFloat).records| == |NonBlank(body)|
  {
    ChainFollowsEntries(os, previous, parseFloat);
    ChainSucceedsIff(os, previous, parseFloat);
    assert forall k :: 0 <= k < |os| ==> (IsEntry(os[k]) <==> NotBlankLine(body[k])) by {
      forall k | 0 <= k < |os| ensures IsEntry(os[k]) <==> NotBlankLine(body[k]) {
        assert Fine(os[k], parseFloat);
      }
    }
    FilterSameLength(os, IsEntry, body, NotBlankLine);
  }

  /** Every outcome is the decoder's verdict on its line, for the state the
      earlier outcomes left. */
  lemma {:induction false} OutcomesMatch<S, L>(body: seq<Line>, state: S, decode: (Line, S) -> Outcome<L>,
                                               next: (Outcome<L>, S) -> S)
    requires forall l, s :: decode(l, s).Blank? <==> l == "\n"
    requires forall l, s :: decode(l, s) != Broken(MissingHeader)
    ensures var os := Outcomes(body, state, decode, next);
      forall k :: 0 <= k < |body| ==> (os[k].Blank? <==> body[k] == "\n") && os[k] != Broken(MissingHeader)
  {
    if body != [] {
      var o := decode(body[0], state);
      OutcomesMatch(body[1..], next(o, state), decode, next);
      assert forall k :: 1 <= k < |body| ==> body[1..][k - 1] == body[k];
    }
  }

  lemma {:induction false} StatelessOutcomes<L>(body: seq<Line>, decode: Line -> Outcome<L>)
    ensures var os := Outcomes(body, (), Stateless(decode), Keep);
      forall k :: 0 <= k < |body| ==> os[k] == decode(body[k])
  {
    if body != [] {
      StatelessOutcomes(body[1..], decode);
      assert forall k :: 1 <= k < |body| ==> body[1..][k - 1] == body[k];
    }
  }

  /** A run makes one record of each stamped entry, and ends as the stamps
      do. */
  lemma RunMakes<S, L, T>(lines: seq<Line>, initial: S, decode: (Line, S) -> Outcome<L>,
                          next: (Outcome<L>, S) -> S, make: Stamped<L> -> T,
                          parseFloat: string -> Option<real>)
    ensures var st := Stamps(lines, initial, decode, next, parseFloat);
      var r := Run(lines, initial, decode, next, make, parseFloat);
      && r.error == st.error && |r.records| == |st.records|
      && forall k :: 0 <= k < |r.records| ==> r.records[k] == make(st.records[k])
  {
    var st := Stamps(lines, initial, decode, next, parseFloat);
    assert [] + MapRecords(st.records, make) == MapRecords(st.records, make);
  }

  /** The shape every reader's run has, whatever the line decoder, provided
      the decoder skips exactly the lone-newline lines and never raises
      `EOFError`: `EOFError` exactly when no line closes a header; the k-th
      stamp carries the k-th entry's content and ends at its timestamp, the
      stamps chained from 0.0; and, without an exception, one stamp per line
      after the header that is not a lone newline. */
  lemma RunShape<S, L>(lines: seq<Line>, initial: S, decode: (Line, S) -> Outcome<L>,
                       next: (Outcome<L>, S) -> S, parseFloat: string -> Option<real>)
    requires forall l, s :: decode(l, s).Blank? <==> l == "\n"
    requires forall l, s :: decode(l, s) != Broken(MissingHeader)
    ensures var r := Stamps(lines, initial, decode, next, parseFloat);
      var e := Entries(Outcomes(Body(lines), initial, decode, next));
      && (r.error == Some(MissingHeader) <==> forall k :: 0 <= k < |lines| ==> !StartsWith(lines[k], "#"))
      && (r.error == Some(MissingHeader) ==> r.records == [])
      && |r.records| <= |e|
      && (forall k :: 0 <= k < |r.records| ==>
            r.records[k].content == e[k].content && parseFloat(e[k].time) == Some(r.records[k].end))
      && Linked(r.records, 0.0)
      && (r.error.None? ==> |r.records| == |e| == |NonBlank(Body(lines))|)
  {
    match HeaderEnd(lines)
    case None =>
    case Some(h) =>
      var body := lines[h + 1..];
      var os := Outcomes(body, initial, decode, next);
      OutcomesMatch(body, initial, decode, next);
      ChainLinks(os, 0.0, parseFloat);
      ChainFollowsEntries(os, 0.0, parseFloat);
      ChainErrorOrigin(os, 0.0, parseFloat, MissingHeader);
      if Chain(os, 0.0, parseFloat).error.None? {
        ChainCount(os, body, 0.0, parseFloat);
      }
  }

  /** A file whose only `#` line is its last line yields nothing and raises
      nothing. */
  lemma HeaderOnly(lines: seq<Line>, parseFloat: string -> Option<real>)
    requires lines != [] && StartsWith(lines[|lines| - 1], "#")
    requires forall k :: 0 <= k < |lines| - 1 ==> !StartsWith(lines[k], "#")
    ensures Logs(lines, parseFloat) == Parsed([], None)
    ensures Phones(lines, parseFloat) == Parsed([], None)
    ensures Words(lines, parseFloat) == Parsed([], None)
  {
    assert HeaderEnd(lines) == Some(|lines| - 1);
    assert lines[|lines|..] == [];
  }

  // Properties of the line decoders.

  /** The cases of a `.log` line, by its whitespace-separated tokens: three
      or more make an entry labelled with the stripped rest of the line, two
      an entry without a label, fewer an error unless the line is a lone
      newline, which is skipped. */
  lemma LogLineCases(line: Line)
    ensures var t := Split(line); var o := LogLine(line);
      && (|t| >= 3 ==> |SplitMax2(line)| == 3 && o == Entry(t[0], Some(Strip(SplitMax2(line)[2])))
                       && Split(SplitMax2(line)[2]) == t[2..])
      && (|t| == 2 ==> o == Entry(t[0], None))
      && (|t| < 2 ==> o == (if line == "\n" then Blank else Broken(MalformedEntry)))
  {
    SplitMax2Agrees(line);
  }

  /** The same cases for a `.phones` line, whose label is cleaned. */
  lemma PhoneLineCases(line: Line)
    ensures var t := Split(line); var o := PhoneLine(line);
      && (|t| >= 3 ==> |SplitMax2(line)| == 3 && o == Entry(t[0], Some(PhoneLabel(SplitMax2(line)[2]))))
      && (|t| == 2 ==> o == Entry(t[0], None))
      && (|t| < 2 ==> o == (if line == "\n" then Blank else Broken(MalformedEntry)))
  {
    SplitMax2Agrees(line);
  }

  /** A cleaned segment label holds no `;` and no surrounding whitespace,
      and the two membership guards are redundant: it is the stripped text
      before the first `;` once every `+1` is removed. */
  lemma PhoneLabelClean(s: string)
    ensures ';' !in PhoneLabel(s)
    ensures var r := PhoneLabel(s); r == [] || (!IsSpace(r[0]) && !IsSpace(r[|r| - 1]))
    ensures PhoneLabel(s) == Strip(SplitOn(RemoveAll(s, "+1"), ';')[0])
  {
    var noPlus := if Contains(s, "+1") then RemoveAll(s, "+1") else s;
    if !Contains(s, "+1") {
      RemoveAllAbsent(s, "+1");
    }
    var before := if ';' in noPlus then SplitOn(noPlus, ';')[0] else noPlus;
    if ';' !in noPlus {
      SplitOnAbsent(noPlus, ';');
    }
    StripKeepsChars(before, ';');
  }

  /** A `.words` line is skipped exactly when it is a lone newline. */
  lemma WordLineBlank(line: Line, bound: Option<Bound>)
    ensures WordLine(line, bound).Blank? <==> line == "\n"
  {
    if line == "\n" {
      assert Strip(line) == "";
      assert SplitOn("", ';') == [""];
      assert |Fields(line)| == 1;
      assert Unpack(line, bound) == Skipped;
    } else {
      assert !Unpack(line, bound).Skipped?;
    }
  }

  /** What an entry holds, by its number of fields: the first field is
      the word, the last the part of speech, and the ones between, split
      on whitespace, are the phonemic and then the phonetic transcription. */
  lemma WordFieldCounts(line: Line, bound: Option<Bound>)
    ensures var fs := Fields(line); var u := Unpack(line, bound);
      && (|fs| == 4 ==> u == Unpacked(WordFields(fs[0], Some(Split(fs[1])), Some(Split(fs[2])), fs[3])))
      && (|fs| == 3 && line != "\n" ==> u == Unpacked(WordFields(fs[0], Some(Split(fs[1])), None, fs[2])))
      && (|fs| == 2 && line != "\n" ==> u == Unpacked(WordFields(fs[0], None, None, fs[1])))
  {
  }

  /** Any other number of fields falls back on the previous entry's label,
      phonemic transcription and part of speech, and has no phonetic one;
      before the first entry it raises `UnboundLocalError`. */
  lemma WordFieldsFallBack(line: Line, bound: Option<Bound>)
    requires |Fields(line)| !in {2, 3, 4} && line != "\n"
    ensures bound.None? ==> WordLine(line, bound) == Broken(UnboundLabel)
    ensures bound.Some? ==>
      Unpack(line, bound) == Unpacked(WordFields(bound.value.word, bound.value.phonemic, None, bound.value.pos))
  {
  }

  // The readers' runs.

  /** `process_logs` yields one entry per line after the header that is not
      a lone newline, labelled by its line, chained from 0.0. */
  lemma LogsShape(lines: seq<Line>, parseFloat: string -> Option<real>)
    ensures var r := Logs(lines, parseFloat);
      var e := Entries(Outcomes(Body(lines), (), Stateless(LogLine), Keep));
      && (r.error == Some(MissingHeader) <==> forall k :: 0 <= k < |lines| ==> !StartsWith(lines[k], "#"))
      && (r.error == Some(MissingHeader) ==> r.records == [])
      && |r.records| <= |e|
      && (forall k :: 0 <= k < |r.records| ==>
            && r.records[k].beg.Some?
            && r.records[k].entry == e[k].content
            && parseFloat(e[k].time) == r.records[k].end)
      && (r.records != [] ==> r.records[0].beg == Some(0.0))
      && (forall k {:trigger r.records[k].beg} :: 0 < k < |r.records| ==> r.records[k].beg == r.records[k - 1].end)
      && (r.error.None? ==> |r.records| == |NonBlank(Body(lines))|)
  {
    forall l, u: () ensures (Stateless(LogLine)(l, u).Blank? <==> l == "\n")
      && Stateless(LogLine)(l, u) != Broken(MissingHeader) {
      LogLineCases(l);
    }
    RunShape(lines, (), Stateless(LogLine), Keep, parseFloat);
    LogsStamped(lines, parseFloat);
    var st := Stamps(lines, (), Stateless(LogLine), Keep, parseFloat).records;
    var r := Logs(lines, parseFloat).records;
    forall k | 0 < k < |r| ensures r[k].beg == r[k - 1].end {
      assert st[k].beg == st[k - 1].end;
    }
  }

  /** Each record carries its stamp's content and timestamps, and the run
      ends as the stamps do. */
  lemma LogsStamped(lines: seq<Line>, parseFloat: string -> Option<real>)
    ensures var st := Stamps(lines, (), Stateless(LogLine), Keep, parseFloat);
      var r := Logs(lines, parseFloat);
      && r.error == st.error && |r.records| == |st.records|
      && forall k :: 0 <= k < |r.records| ==>
           r.records[k] == LogEntry(st.records[k].content, Some(st.records[k].beg), Some(st.records[k].end))
  {
    RunMakes(lines, (), Stateless(LogLine), Keep, LogMaker(parseFloat), parseFloat);
  }

  /** `process_phones` likewise, one phone per line. */
  lemma PhonesShape(lines: seq<Line>, parseFloat: string -> Option<real>)
    ensures var r := Phones(lines, parseFloat);
      var e := Entries(Outcomes(Body(lines), (), Stateless(PhoneLine), Keep));
      && (r.error == Some(MissingHeader) <==> forall k :: 0 <= k < |lines| ==> !StartsWith(lines[k], "#"))
      && (r.error == Some(MissingHeader) ==> r.records == [])
      && |r.records| <= |e|
      && (forall k :: 0 <= k < |r.records| ==>
            && r.records[k].beg.Some?
            && r.records[k].seg == e[k].content
            && parseFloat(e[k].time) == r.records[k].end)
      && (r.records != [] ==> r.records[0].beg == Some(0.0))
      && (forall k {:trigger r.records[k].beg} :: 0 < k < |r.records| ==> r.records[k].beg == r.records[k - 1].end)
      && (r.error.None? ==> |r.records| == |NonBlank(Body(lines))|)
  {
    forall l, u: () ensures (Stateless(PhoneLine)(l, u).Blank? <==> l == "\n")
      && Stateless(PhoneLine)(l, u) != Broken(MissingHeader) {
      PhoneLineCases(l);
    }
    RunShape(lines, (), Stateless(PhoneLine), Keep, parseFloat);
    PhonesStamped(lines, parseFloat);
    var st := Stamps(lines, (), Stateless(PhoneLine), Keep, parseFloat).records;
    var r := Phones(lines, parseFloat).records;
    forall k | 0 < k < |r| ensures r[k].beg == r[k - 1].end {
      assert st[k].beg == st[k - 1].end;
    }
  }

  /** Each record carries its stamp's content and timestamps, and the run
      ends as the stamps do. */
  lemma PhonesStamped(lines: seq<Line>, parseFloat: string -> Option<real>)
    ensures var st := Stamps(lines, (), Stateless(PhoneLine), Keep, parseFloat);
      var r := Phones(lines, parseFloat);
      && r.error == st.error && |r.records| == |st.records|
      && forall k :: 0 <= k < |r.records| ==>
           r.records[k] == Phone(st.records[k].content, Some(st.records[k].beg), Some(st.records[k].end))
  {
    RunMakes(lines, (), Stateless(PhoneLine), Keep, PhoneMaker(parseFloat), parseFloat);
  }

  /** `process_words` likewise. */
  lemma WordsShape(lines: seq<Line>, parseFloat: string -> Option<real>)
    ensures var r := Words(lines, parseFloat);
      var e := Entries(Outcomes(Body(lines), None, WordLine, NextBound));
      && (r.error == Some(MissingHeader) <==> forall k :: 0 <= k < |lines| ==> !StartsWith(lines[k], "#"))
      && (r.error == Some(MissingHeader) ==> r.records == [])
      && |r.records| <= |e|
      && (forall k :: 0 <= k < |r.records| ==>
            r.records[k].beg.Some? && parseFloat(e[k].time) == r.records[k].end)
      && (r.records != [] ==> r.records[0].beg == Some(0.0))
      && (forall k {:trigger r.records[k].beg} :: 0 < k < |r.records| ==> r.records[k].beg == r.records[k - 1].end)
      && (r.error.None? ==> |r.records| == |NonBlank(Body(lines))|)
  {
    WordLinesBlank();
    RunShape(lines, None, WordLine, NextBound, parseFloat);
    WordsStamped(lines, parseFloat);
    var st := Stamps(lines, None, WordLine, NextBound, parseFloat).records;
    var r := Words(lines, parseFloat).records;
    forall k | 0 < k < |r| ensures r[k].beg == r[k - 1].end {
      assert st[k].beg == st[k - 1].end;
    }
  }

  /** Each item carries its stamp's timestamps, and the run ends as the
      stamps do. */
  lemma WordsStamped(lines: seq<Line>, parseFloat: string -> Option<real>)
    ensures var st := Stamps(lines, None, WordLine, NextBound, parseFloat);
      var r := Words(lines, parseFloat);
      && r.error == st.error && |r.records| == |st.records|
      && forall k :: 0 <= k < |r.records| ==>
           r.records[k].beg == Some(st.records[k].beg) && r.records[k].end == Some(st.records[k].end)
  {
    RunMakes(lines, None, WordLine, NextBound, WordMaker(parseFloat), parseFloat);
    var st := Stamps(lines, None, WordLine, NextBound, parseFloat).records;
    forall k | 0 <= k < |st| ensures WordMade(st[k], WordMaker(parseFloat)(st[k])) {
      WordMakerMakes(st[k], parseFloat);
    }
  }

  /** The k-th item `process_words` yields is a pause exactly when the k-th
      entry's label opens with `<` or `{`; a pause carries that label, and a
      word carries it with the entry's transcriptions and part of speech. */
  lemma WordsContent(lines: seq<Line>, parseFloat: string -> Option<real>)
    ensures var r := Words(lines, parseFloat);
      var e := Entries(Outcomes(Body(lines), None, WordLine, NextBound));
      && |r.records| <= |e|
      && (forall k :: 0 <= k < |r.records| ==>
            && (r.records[k].Pause? <==> IsPauseLabel(e[k].content.word))
            && (r.records[k].Pause? ==> r.records[k].entry == Some(e[k].content.word))
            && (r.records[k].Word? ==>
                  && r.records[k].orthography == e[k].content.word
                  && r.records[k].phonemic == e[k].content.phonemic
                  && r.records[k].phonetic == e[k].content.phonetic
                  && r.records[k].pos == Some(e[k].content.pos)))
  {
    WordLinesBlank();
    RunShape(lines, None, WordLine, NextBound, parseFloat);
    RunMakes(lines, None, WordLine, NextBound, WordMaker(parseFloat), parseFloat);
    var st := Stamps(lines, None, WordLine, NextBound, parseFloat).records;
    forall k | 0 <= k < |st| ensures WordMade(st[k], WordMaker(parseFloat)(st[k])) {
      WordMakerMakes(st[k], parseFloat);
    }
  }

  lemma WordLinesBlank()
    ensures forall l, b :: (WordLine(l, b).Blank? <==> l == "\n") && WordLine(l, b) != Broken(MissingHeader)
  {
    forall l, b ensures (WordLine(l, b).Blank? <==> l == "\n")
      && WordLine(l, b) != Broken(MissingHeader) {
      WordLineBlank(l, b);
    }
  }

  /** What the record built from one stamped `.words` entry holds. */
  ghost predicate WordMade(st: Stamped<WordFields>, x: Item) {
    && x.beg == Some(st.beg) && x.end == Some(st.end)
    && (x.Pause? <==> IsPauseLabel(st.content.word))
    && (x.Pause? ==> x.entry == Some(st.content.word))
    && (x.Word? ==>
          && x.orthography == st.content.word
          && x.phonemic == st.content.phonemic
          && x.phonetic == st.content.phonetic
          && x.pos == Some(st.content.pos))
  }

  lemma WordMakerMakes(st: Stamped<WordFields>, parseFloat: string -> Option<real>)
    ensures WordMade(st, WordMaker(parseFloat)(st))
  {
  }
}
