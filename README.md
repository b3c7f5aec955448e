# buckeye, modelled in Dafny

A Dafny model of the core of `buckeye`, a Python reader for the Buckeye
corpus of conversational speech. The corpus annotates each recording with
three time-stamped files:

- a `.words` file of words and pauses with their transcriptions;
- a `.phones` file of phone segments;
- a `.log` file of annotator comments.

The model covers four parts of the library:

- **Readers** (`parsers.dfy`, module `Parsers`). `process_logs`,
  `process_phones` and `process_words` each skip a header that ends at the
  first line starting with `#`. Each then turns `<time> <color> <label>`
  lines into records. A record runs from the previous timestamp (0.0 for
  the first) to its own. The Python string methods these readers call
  (`split()`, `split(None, 2)`, `split(';')`, `strip()`, `replace`, `in`)
  are written out over `seq<char>` in `pytext.dfy` (module `PyText`).
- **Records** (`containers.dfy`, module `Containers`). `Word`, `Pause`,
  `Phone` and `LogEntry` are datatypes with optional timestamps and a
  derived `dur`. The module also models `misaligned`, `syllables` and the
  `SYLLABIC` set.
- **Tracks** (`tracks.dfy`, module `Tracks`; `bisect.dfy`, module
  `Bisect`). A `Track` class builds its record lists with the readers.
  `SetPhones` gives each word and pause the phones whose midpoint lies in
  its interval, found with `bisect_left`. `GetLogs` answers the interval
  query over the log with two bisections.
- **Utterances** (`utterance.dfy`, module `Utterances`). An `Utterance`
  class keeps its items sorted by beginning and checks them for overlap on
  construction and on `append`; it also has `beg`, `end`, `dur`, `len` and
  `speech_rate`. The segmenter `words_to_utterances` cuts a stream of items
  into utterances wherever a run of pauses lasts at least `sep` seconds.

`wrappers.dfy` holds `Option` and `Result`. `seqs.dfy` holds `Filter` and
`Flatten` with their lemmas.

How the model stands in for the Python:

- Timestamps are `real`. Python's `float()` on a string is the function
  parameter `parseFloat: string -> Option<real>`; `None` stands for a
  `ValueError` or `TypeError`.
- A file is the `seq<Line>` of lines `readline()` returns before the end of
  the file, so every line is non-empty.
- A generator is modelled by its run: the records it yielded before it
  stopped, plus the exception that stopped it (`Parsed` for the readers,
  `Segmented` for the segmenter). Each reader loop and the segmenter loop
  is an imperative `while` method, proved equal to a recursive function.
  The properties are lemmas about those functions.
- Python's stable `sorted` is modelled as stable insertion (`SortByBeg`).
  It is proved to be a permutation that is sorted, to keep the relative
  order of items that begin at the same time, and to leave an
  already-ordered list unchanged.

## Model

| member | source | states |
|---|---|---|
| Containers.Duration | buckeye/containers.py:148-155 | `dur` is defined exactly when both timestamps are, and then `beg + dur == end` |
| Containers.TimestampCoercion | buckeye/containers.py:62-80 | a timestamp is stored as None exactly when it is missing or is text that does not parse; a number is kept; `dur` is None when either end is; a new word has no phones and is misaligned only through a negative duration |
| Containers.OnlyPhonesAssignable | buckeye/containers.py:80 | assigning `phones` changes no other field, nor `dur` or the word/pause kind |
| Containers.SegsMatchAll | buckeye/containers.py:132-134 | the `zip` scan over equal-length lists finds no mismatch exactly when every position's `seg` equals the phonetic segment |
| Containers.WordMisaligned | buckeye/containers.py:113-136 | a word is misaligned exactly when its duration is negative, or phones are assigned and `phonetic` is missing, has another length, or differs at some position |
| Containers.NegativeDurationMisaligned | buckeye/containers.py:120-121 | a negative duration makes an item misaligned whatever phones are assigned |
| Containers.ZeroDurationAligned | buckeye/containers.py:120-124 | a zero-length word or pause with no phones is not misaligned |
| Containers.PauseMisaligned | buckeye/containers.py:254-261 | a pause is misaligned exactly when its duration is negative, and assigning phones never changes that |
| Containers.Item.Syllables | buckeye/containers.py:157-192 | the count is None exactly when the chosen transcription is missing, and otherwise at most its length |
| Containers.CountSyllabicPositions | buckeye/containers.py:188-189 | the count equals the number of positions of the transcription holding a `SYLLABIC` segment |
| Containers.SyllableSource | buckeye/containers.py:178-186 | `phonemic` is counted by default; with `phonetic=True`, the segments of `phones` if assigned, else `phonetic`; the count is None exactly when that source is |
| PyText.Strip | buckeye/buckeye.py:430 | `strip()` gives the contiguous piece `s[i..j]` where everything before `i` and from `j` on is whitespace, and that piece has no whitespace at either end |
| PyText.StripKeepsChars | buckeye/buckeye.py:487 | stripping only removes characters |
| PyText.Split | buckeye/buckeye.py:437 | every token of `split()` is non-empty and free of whitespace |
| PyText.SplitRuns | buckeye/buckeye.py:541-542 | the tokens of `split()` are the maximal runs of non-whitespace, in order: with one whitespace-only gap more than there are tokens, and a non-empty gap between each two tokens, gaps and tokens taken in turn give the text back |
| PyText.SplitMax2 | buckeye/buckeye.py:429 | `split(None, 2)` gives at most three pieces, none empty |
| PyText.SplitMax2Agrees | buckeye/buckeye.py:429-437 | `split(None, 2)` agrees with `split()` below three pieces; with three, its first two pieces are `split()`'s first two tokens and its rest splits into the remaining tokens, of which there is at least one |
| PyText.SplitOn | buckeye/buckeye.py:485 | `split(';')` gives at least one piece, and no piece holds the separator |
| PyText.SplitOnJoin | buckeye/buckeye.py:537 | joining the pieces of `split(c)` with `c` gives the line back |
| PyText.SplitOnAbsent | buckeye/buckeye.py:484-485 | without an occurrence of the separator, `split` yields the whole string |
| PyText.RemoveAllAbsent | buckeye/buckeye.py:481-482 | `replace('+1', '')` on text without `+1` is the identity |
| Parsers.HeaderEnd | buckeye/buckeye.py:414-423 | the header closes at the first line starting with `#`, or there is no such line |
| Parsers.FindHeader | buckeye/buckeye.py:414-423 | the header loop stops at the position `HeaderEnd` gives, or reports the end of the file |
| Parsers.ReadEntries | buckeye/buckeye.py:425-444 | the entry loop, which updates `line`, `previous` and the yielded records, produces the run `Chain` describes |
| Parsers.ProcessLogs | buckeye/buckeye.py:397-444 | `process_logs` produces the run `Logs` describes |
| Parsers.ProcessPhones | buckeye/buckeye.py:447-501 | `process_phones` produces the run `Phones` describes |
| Parsers.ProcessWords | buckeye/buckeye.py:504-578 | `process_words` produces the run `Words` describes |
| Parsers.ChainLinks | buckeye/buckeye.py:426-443 | the first record begins at 0.0 and each later one where the one before it ended |
| Parsers.ChainSucceedsIff | buckeye/buckeye.py:427-440 | a run ends without an exception exactly when no line is malformed and every timestamp parses |
| Parsers.ChainFollowsEntries | buckeye/buckeye.py:440-443 | the k-th record carries the k-th entry's label and ends at its parsed timestamp; a run without an exception yields one record per entry |
| Parsers.ChainErrorOrigin | buckeye/buckeye.py:428-440 | the entry loop raises only what a malformed line or a bad timestamp raises |
| Parsers.ChainCount | buckeye/buckeye.py:432-435 | when exactly the lone-newline lines are skipped, a run without an exception yields one record per other line |
| Parsers.RunShape | buckeye/buckeye.py:414-444 | for any line decoder that skips exactly the lone newlines: `EOFError`, with no record, exactly when no line starts with `#`; records follow the entries, are chained from 0.0, and number the non-blank lines after the header when nothing is raised |
| Parsers.HeaderOnly | buckeye/buckeye.py:423-427 | a file whose only `#` line is its last yields nothing and raises nothing, for all three readers |
| Parsers.LogLineCases | buckeye/buckeye.py:428-438 | a `.log` line with three or more tokens is an entry labelled by the stripped rest, one with two tokens an entry without a label, a lone newline is skipped, and anything else raises `ValueError` |
| Parsers.PhoneLineCases | buckeye/buckeye.py:478-495 | the same cases for a `.phones` line, with the label cleaned |
| Parsers.PhoneLabelClean | buckeye/buckeye.py:481-487 | a cleaned label has no `;` and no surrounding whitespace; it is the stripped text before the first `;` once every `+1` is removed, so both membership guards are redundant |
| Parsers.WordLineBlank | buckeye/buckeye.py:544-547 | a `.words` line is skipped exactly when it is a lone newline |
| Parsers.WordFieldCounts | buckeye/buckeye.py:537-559 | four fields give both transcriptions, three only the phonemic one, two neither |
| Parsers.WordFieldsFallBack | buckeye/buckeye.py:544-563 | any other field count reuses the previous entry's `word`, `phonemic` and `pos` with no phonetic transcription, and before any entry raises `UnboundLocalError` |
| Parsers.LogsShape | buckeye/buckeye.py:397-444 | `process_logs`: `EOFError` exactly without a header; each entry carries its line's label and ends at its timestamp; chained from 0.0; one entry per non-blank line after the header when nothing is raised |
| Parsers.LogsStamped | buckeye/buckeye.py:440-441 | each `LogEntry` is built from its stamp: label, previous timestamp, own timestamp |
| Parsers.PhonesShape | buckeye/buckeye.py:447-501 | `process_phones`: the same shape as the log reader, one `Phone` per line |
| Parsers.PhonesStamped | buckeye/buckeye.py:497-498 | each `Phone` is built from its stamp |
| Parsers.WordsShape | buckeye/buckeye.py:504-578 | `process_words`: the same shape, one item per line |
| Parsers.WordsStamped | buckeye/buckeye.py:565-577 | each item spans from the previous timestamp to its own |
| Parsers.WordsContent | buckeye/buckeye.py:563-575 | the k-th item is a `Pause` exactly when the k-th label opens with `<` or `{`; a pause carries the label, a word the label, transcriptions and part of speech |
| Parsers.WordMakerMakes | buckeye/buckeye.py:571-575 | one stamped entry becomes the pause or word its label calls for |
| Bisect.BisectLeft | buckeye/buckeye.py:301-302 | on a sorted list, `bisect_left` is the first position not below `x`, which is the count of elements below `x` |
| Bisect.BisectRight | buckeye/buckeye.py:364 | on a sorted list, `bisect` is the first position above `x`, which is the count of elements at most `x` |
| Bisect.CountBelowSplits | buckeye/buckeye.py:301 | on a sorted list, the elements below `x` are exactly the first `CountBelow` ones |
| Bisect.CountAtMostSplits | buckeye/buckeye.py:364 | on a sorted list, the elements at most `x` are exactly the first `CountAtMost` ones |
| Tracks.Midpoints | buckeye/buckeye.py:298 | one midpoint `beg + 0.5 * dur` per phone |
| Tracks.SpanIsSlice | buckeye/buckeye.py:298-304 | on ordered midpoints, the phones whose midpoint lies in `[beg, end)` are the slice between the two `bisect_left` positions, in order, and none when those cross |
| Tracks.PhonesWithinMembers | buckeye/buckeye.py:290-294 | a phone is assigned to an item exactly when it is one of the track's phones and its midpoint lies in the item's interval |
| Tracks.EmptySpanHasNoPhones | buckeye/buckeye.py:301-304 | a zero-length or reversed item gets no phones |
| Tracks.DisjointSpansShareNoPhone | buckeye/buckeye.py:290-294 | items that do not overlap never share a phone |
| Tracks.HalfDurationRule | buckeye/buckeye.py:290-294 | for every forward phone that sticks out of `[beg, end]` on at most one side: if more than half its duration lies inside, it is assigned, and if less than half does, it is not |
| Tracks.OverlapIsSlice | buckeye/buckeye.py:340-367 | with begs and ends in order, the entries overlapping `(beg, end)` are the slice from the `bisect` position among the ends to the `bisect_left` position among the begs, and none when those cross |
| Tracks.OverlappingMembers | buckeye/buckeye.py:343-346 | an entry is returned exactly when it ends after `beg` and begins before `end`, so one that only touches the interval is not; a backwards query returns only entries spanning both points |
| Tracks.Track.constructor | buckeye/buckeye.py:198-235 | stores the records, assigns every word's phones as `SetPhones` does, and records the log's begs and ends |
| Tracks.Track.SetPhones | buckeye/buckeye.py:285-304 | gives every item a phone list in the `phones` field that `misaligned` and `syllables` read, and changes nothing else; on ordered midpoints, each item gets exactly the phones of its interval |
| Tracks.Track.SetPhonesAsWritten | buckeye/buckeye.py:285-304 | as the source writes it: every item's slice goes to its `_phones` attribute, exactly the phones of its interval on ordered midpoints, and the items themselves stay as they were |
| Tracks.ReadItemsUnlinked | buckeye/buckeye.py:304 | when `_phones` is what gets assigned, every item a `.words` file yields keeps no `phones`, so `misaligned` is only a negative duration and `syllables(True)` counts `phonetic` |
| Tracks.SetPhonesDiscrepancy | buckeye/buckeye.py:304 | on one word and one phone the two versions differ: as written the word is aligned with one syllable, linked through `phones` it is misaligned with none |
| Tracks.Track.GetLogs | buckeye/buckeye.py:340-367 | with ordered begs and ends, returns exactly the entries overlapping `(beg, end)`, in log order |
| Tracks.ReadRecordsTimed | buckeye/buckeye.py:205-217 | every record the three readers yield has both timestamps |
| Tracks.Load | buckeye/buckeye.py:198-235 | reads words, phones and log in that order; the first exception stops construction; otherwise the track holds the readers' records, with the words' phones assigned |
| Utterances.Insert | buckeye/utterance.py:124-125 | stable insertion adds exactly the one item |
| Utterances.InsertSorted | buckeye/utterance.py:125 | inserting into an ordered list keeps it ordered by beginning |
| Utterances.SortByBegPermutes | buckeye/utterance.py:36 | the sorted list holds exactly the items given |
| Utterances.SortByBegSorts | buckeye/utterance.py:36 | the sorted list is ordered by beginning |
| Utterances.SortByBegKeepsOrdered | buckeye/utterance.py:36 | an already ordered list comes back unchanged |
| Utterances.SortByBegStable | buckeye/utterance.py:36 | the sort is stable: for every time `k`, the items that begin at `k` come out in the order they went in |
| Utterances.AppendLatest | buckeye/utterance.py:124-125 | appending an item that begins no earlier than any other and sorting again puts it last |
| Utterances.FirstReversal | buckeye/utterance.py:38-40 | the validation scan fails exactly when some item lacks an end or begins after it ends, and names which |
| Utterances.Build | buckeye/utterance.py:31-46 | construction succeeds with the items sorted by beginning, every item forward and no neighbours overlapping; each failure has its witness |
| Utterances.BuildSucceeds | buckeye/utterance.py:36-46 | construction succeeds exactly on timed, forward items whose sorted order has no overlapping neighbours, and then holds a sorted permutation of them |
| Utterances.BuildReversesBackwards | buckeye/utterance.py:36 | a list given in reverse order is stored chronologically |
| Utterances.BuildTouching | buckeye/utterance.py:42-44 | two items that only touch are accepted; two that overlap are refused |
| Utterances.Utterance.Empty | buckeye/utterance.py:32-34 | `Utterance()` holds no items |
| Utterances.Utterance.FromItems | buckeye/utterance.py:31-46 | `Utterance(words)` holds `Build`'s list or raises `Build`'s error |
| Utterances.Utterance.Beg | buckeye/utterance.py:66-73 | the first item's beginning, the least of all; fails exactly on an empty utterance |
| Utterances.Utterance.End | buckeye/utterance.py:75-82 | the last item's end; fails exactly on an empty utterance |
| Utterances.Utterance.Dur | buckeye/utterance.py:84-91 | `end - beg`, never negative; fails exactly on an empty utterance |
| Utterances.Utterance.Length | buckeye/utterance.py:133-134 | the number of items |
| Utterances.Contribution | buckeye/utterance.py:166-173 | a word adds its syllables and fails without a transcription; a non-word adds zero when missing syllables are ignored and fails otherwise |
| Utterances.TallyFailsAtFirst | buckeye/utterance.py:166-173 | the count fails exactly when some item cannot contribute, with the error of the first such item |
| Utterances.TallyIgnoringPauses | buckeye/utterance.py:166-173 | ignoring missing syllables counts the words alone |
| Utterances.TallySplits | buckeye/utterance.py:164-171 | the syllables of two stretches add up |
| Utterances.CountSyllables | buckeye/utterance.py:164-173 | the `for` loop computes the left-to-right count `Tally` |
| Utterances.Utterance.SpeechRate | buckeye/utterance.py:136-176 | fails on an empty utterance and with the first item's error; otherwise the syllable count divided by `dur`, failing on a zero duration |
| Utterances.Refusal | buckeye/utterance.py:113-122 | `append` refuses an item exactly when a timestamp is missing, it begins after it ends, or an existing item begins in `(item.beg, item.end]` |
| Utterances.Utterance.Append | buckeye/utterance.py:98-125 | a refused item leaves the utterance unchanged; otherwise the items are the old ones plus the new one, sorted by beginning, and stay valid |
| Utterances.Utterance.Truncate | buckeye/utterance.py:243-244 | dropping the last `count` items keeps the utterance valid |
| Utterances.RunLen | buckeye/utterance.py:224-234 | `pause_count` is the length of the run of pauses that ends the chunk |
| Utterances.CutAt | buckeye/utterance.py:238-240 | the first chunk runs to the shortest prefix after which the segmenter cuts, or to the end |
| Utterances.DropLeadingPauses | buckeye/utterance.py:218-220 | what is skipped is pauses, and what is left starts with a word |
| Utterances.ChunksShape | buckeye/utterance.py:214-252 | every chunk is non-empty, cuts nowhere before its end, starts with a word when stripping, and all but the last end where the segmenter cuts |
| Utterances.ChunksCover | buckeye/utterance.py:214-259 | without stripping, the chunks are the input cut into pieces |
| Utterances.TrimmedChunk | buckeye/utterance.py:243-244 | a chunk without its trailing pauses starts and ends with a word and keeps its words |
| Utterances.SegmentsWithoutStripping | buckeye/utterance.py:214-259 | with `strip_pauses=False` every utterance is non-empty and together they are exactly the input, in order |
| Utterances.SegmentsWithStripping | buckeye/utterance.py:199-259 | with `strip_pauses=True` every utterance is non-empty and starts and ends with a word; the input is gap, utterance, gap, …, utterance, gap in that order, where every gap holds pauses only, so each utterance is a contiguous slice of the input, interior pauses kept, and only leading and trailing pauses are removed; together the utterances hold every word of the input, in order |
| Utterances.StrippedPieces | buckeye/utterance.py:219-256 | from any point of the stream, the gaps and the utterances, taken in turn, give back exactly the input, with the pauses cut from the end of the previous utterance at the head of the first gap |
| Utterances.StrippedGapsArePauses | buckeye/utterance.py:218-256 | every item the stripping segmenter skips or cuts, before, between or after the utterances, is a `Pause` |
| Utterances.SkipPause | buckeye/utterance.py:219-220 | with stripping, a pause before any word changes nothing |
| Utterances.Trim | buckeye/utterance.py:243-244 | the yielded items are a prefix, shorter exactly when stripping a non-empty run of pauses |
| Utterances.YieldIfAny | buckeye/utterance.py:246-247 | an utterance is yielded only when it is not empty |
| Utterances.Step | buckeye/utterance.py:214-252 | one pass of the loop stops exactly when `append` refuses an item it does not skip |
| Utterances.StepRefused | buckeye/utterance.py:236 | an item that is not skipped and that `append` refuses stops the run with that refusal |
| Utterances.StepTakes | buckeye/utterance.py:224-252 | an item that is not skipped and that `append` accepts is placed in order; a pause adds one to the run and restarts or grows its duration, a word resets the count; the utterance is cut once the duration reaches `sep` |
| Utterances.StepYieldsNonEmpty | buckeye/utterance.py:246-249 | a pass of the loop yields no empty utterance |
| Utterances.RunYieldsNonEmpty | buckeye/utterance.py:214-259 | the segmenter never yields an empty utterance, on any input |
| Utterances.RunFollowsSegments | buckeye/utterance.py:210-259 | on a chronological input, the loop raises nothing and yields the reference segmentation `Segments` |
| Utterances.RunMeaning | buckeye/utterance.py:179-259 | the run from the start yields only non-empty utterances, and on a chronological input raises nothing and yields `Segments` |
| Utterances.Feed | buckeye/utterance.py:215-252 | one pass of the loop over the mutable utterance and counters does what `Step` says: skip, stop with the error, or go on to its state |
| Utterances.Flush | buckeye/utterance.py:254-259 | strips the trailing pauses when asked and yields the utterance if anything is left |
| Utterances.Take | buckeye/utterance.py:236-252 | an item `append` refuses leaves utterance and yielded list as they were; an accepted one is placed in order, and when the pause run has reached `sep` the utterance, stripped if asked, is yielded if non-empty and the counters restart |
| Utterances.WordsToUtterances | buckeye/utterance.py:179-259 | what the generator yields, and the exception that stops it, are exactly the run `Run` from an empty utterance and zero counters |

## Left out

- File and archive input: `Speaker`, `corpus`, `Track.from_zip`, opening and closing files, and `TRACK_RE`; they are I/O plumbing. `Tracks.Load` takes the lines of each file, and the transcript as a list of lines.
- `clip_wav` and the `wav` attribute, because they do audio I/O.
- The `SPEAKERS` table, because it is constant metadata with no behaviour.
- `__repr__` and `__str__`, because they only format floats for display.
- Python's `float()` on text. It is the parameter `parseFloat`, since the parse itself is foreign code. Floating-point rounding is not modelled: timestamps are exact reals.
- The properties `words` and `__iter__`/`__getitem__`, and the read-only getters, because they return a field unchanged. The datatypes have no setter for any field but `phones`.
- Tracks.Track.SetPhones states the exact phone slices only when the phone midpoints are in order; otherwise it states only that every item gets some phone list and nothing else changes.
- Tracks.HalfDurationRule: the `_set_phones` docstring (buckeye/buckeye.py:292-294) says a phone belongs to a word when at least half of it lies inside; the code tests the midpoint. So a phone with exactly half inside at the word's end is not assigned, and a phone longer than the word can be assigned with less than half inside. The model follows the code, and the lemma states the rule only for a strict majority, on a phone that sticks out on one side at most.
- Tracks.Track.GetLogs states the overlap query only when the log's begs and ends are in order.
- Tracks.Track.constructor requires every word, phone and log entry to be timed. The three readers yield only timed records (`Tracks.ReadRecordsTimed`), so the requirement holds for every track built by `Tracks.Load`; a track built from untimed records is not modelled.
- Utterances.WordsToUtterances reaches the reference segmentation `Segments` only on chronological input: timed, forward items in order of beginnings. On any input its result is `Run`, which models each exception `append` can raise, and every yielded utterance is non-empty.
- The speech-rate values the test fixtures pin (4.0, 4.8 and 3.2 syllables per second). The model states the rate as the count divided by the duration for every utterance, not for those fixtures.
- The tests under `tests/` describe an older revision of the library and were not modelled: boundary-marker correction, `Utterance.strip`, `update_timestamps`, and the `zero`/`squeeze` syllable policies.
- A `.words` line with 1 or 5+ fields: no branch of the code handles it. The model follows what the code does: the line reuses the previous entry's `word`, `phonemic` and `pos`, or raises `UnboundLocalError` before the first entry.

## Findings

| source | as written | input that shows it | evidently intended | confidence | as-written member | corrected member |
|---|---|---|---|---|---|---|
| buckeye/buckeye.py:304 | `_set_phones` assigns each slice to `word._phones`, but `misaligned` and `syllables` read `phones` (buckeye/containers.py:80,123,179), which stays None | a word `a` over `[0, 1)` transcribed `ah` and one phone `b` over `[0, 1)`: as written the word is not misaligned and `syllables(True)` is 1; with the phone linked it is misaligned and the count is 0 | assign `word.phones`, as test/test_buckeye.py:235-239 expects | high; not executed | Tracks.Track.SetPhonesAsWritten | Tracks.Track.SetPhones |
