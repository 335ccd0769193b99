# Synthesizer corpus preprocessing and argument ordering, in Dafny

This project models the data-preparation core of a voice-cloning synthesizer
and the helper that orders command-line arguments for printing.

The preprocessing turns a corpus of recordings and transcripts into a ledger,
`train.txt`. Each kept utterance gets one line in it, made of six columns
joined by `|`: the source audio path, the mel file name, the embedding file
name, the waveform length in samples, the mel-frame count and the text. The
model covers:

- `split_on_silences`, with two entry points. The live one stops early and
  returns the whole waveform with the words joined. The full algorithm after
  that early return does three things. It finds pauses ("breaks") among the
  word tokens. It re-attaches segments that are too short to their shorter
  neighbour, up to a maximum joined length. It cuts one waveform slice and one
  text per final segment.
- `process_utterance`: whether an utterance is skipped, discarded or kept, and
  the record it returns.
- The ledger line format, and the closing statistics that read the ledger back
  and report counts, totals and maxima.
- The drivers for the two corpus layouts:
  - the transcript-file layout: `preprocess_user`, `preprocess_speaker_user`,
    `preprocess_utterance_user`;
  - the segment-annotated layout: `preprocess_librispeech`,
    `preprocess_speaker`.
- `_priority` and `args2dict` from `utils/argutils.py`.

Modules:

- `Wrappers` (wrappers.dfy): `Option` and `Result`.
- `Strings` (strings.dfy): the Python string operations the code relies on.
  These are `''.join`, `sep.join`, `split(sep)`, `split()`, `rstrip`, `strip`,
  `replace`, `str(n)`, `int(s)` on unsigned ASCII digit strings, `%02d`, and
  reading a text file line by line with universal newlines.
- `Utterance` (utterance.dfy): the configuration, the ledger record, the
  keep/discard decision and base names.
- `Segmentation` (segmentation.dfy): `split_on_silences`.
- `Ledger` (ledger.dfy): writing, reading back and the statistics.
- `Corpus` (corpus.dfy): the drivers. The disk is a set of existing paths plus
  the contents of text files. The ledger is a string.
- `ArgUtils` (argutils.dfy): `_priority` and `args2dict`.

Times are `real` seconds. Only comparisons, additions and one multiplication
by the sample rate matter. numpy's `astype(int)` is modelled as truncation
toward zero, and `wav[a:b]` as Python slicing.

The waveform is any sequence of samples. Loading audio and computing the mel
spectrogram are foreign calls. Their observable results, the sample count and
the mel-frame count of the recording at a path, are given to the model as
functions.

The worker pool's `imap` preserves order, so each loop is a fold in input
order. The set of existing paths is threaded through that fold.

Behaviours of the code, modelled as written:

- `split_on_silences` returns at synthesizer/preprocess.py:182, so the
  algorithm at lines 183-231 is unreachable. `Corpus.SpeakerLine` runs the
  loop of lines 166-170 over the pieces of the live shortcut,
  `Segmentation.SplitOnSilencesLive`. The unreachable algorithm is modelled
  on its own as `Segmentation.SplitOnSilences`, and
  `Segmentation.LiveAgreesWithFull` relates the two.
- After a merge, the re-attachment loop stores `d[i] + min(left, right)`. The
  pause between the two segments is not included. A merged segment's stored
  duration is therefore the sum of its parts, not the time from its start to
  its end. `Segmentation.Reattach` proves this sum law.
- In the transcript-file layout the base name is the file name with every `/`
  turned into `-`. Names that differ only there, such as `a/b` and `a-b`,
  share one mel file (`Utterance.UserBasenameCollides`).
- `preprocess_user` reopens the ledger once per dataset directory, so a
  fresh run keeps only the last directory's lines (see Findings).

## Model

| member | source | states |
|---|---|---|
| Segmentation.LiveAgreesWithFull | synthesizer/preprocess.py:181-231 | spaces aside, the one text of the live shortcut is the concatenation of the texts the full algorithm cuts from any partition: both tell the same words |
| Segmentation.StartTimes | synthesizer/preprocess.py:184 | for a non-empty list of end times the start times have the same length; the first is 0 and every later one is the previous word's end time |
| Segmentation.BreaksFrom | synthesizer/preprocess.py:190-192 | the break positions found from `i` on are in range, strictly increasing, each one satisfies the mask, and every masked position appears |
| Segmentation.Breaks | synthesizer/preprocess.py:184-192 | succeeds iff the lengths agree and the first and last words are empty; it fails with the length error first; on success the breaks start at 0, end at n-1, strictly increase, are exactly the masked positions, and all sit on empty words |
| Segmentation.MergeAt | synthesizer/preprocess.py:220-222 | writing index j and deleting index j+1 shortens the list by one, puts the new value at j, leaves the entries before j alone and shifts those after j down by one |
| Segmentation.Reattach | synthesizer/preprocess.py:205-224 | the loop ends; it never removes the last segment; every final segment is a run of consecutive initial segments, spanning from the first one's start to the last one's end; every run of more than one initial segment stays within the cap and holds an initial segment shorter than the minimum; the total duration is conserved; with non-negative durations every final segment is long enough or cannot be joined under the cap |
| Segmentation.Merge | synthesizer/preprocess.py:219-222 | joining a too-short segment with a neighbour within the cap drops exactly the cut between them and keeps the record of absorbed runs, the cap and the too-short member of every joined run, the total duration, non-negativity and the settled segments left of the cursor |
| Segmentation.JustifiedAfterMerge | synthesizer/preprocess.py:207-222 | the run built by joining a too-short segment with a neighbour within the cap stays within the cap and holds a too-short initial segment, and every other joined run keeps both facts |
| Segmentation.NothingShortNothingJoined | synthesizer/preprocess.py:207-224 | when no initial segment is shorter than the minimum, re-attachment leaves the segments and their durations exactly as they were |
| Segmentation.SumMerge | synthesizer/preprocess.py:219-221 | storing `d[j] + d[j+1]` in place of the two durations keeps their sum |
| Segmentation.SettledAfterMerge | synthesizer/preprocess.py:207-216 | a merge at or just before `i` leaves every segment before `i` settled, so `i` need not move back |
| Segmentation.PlanSegments | synthesizer/preprocess.py:183-224 | pause detection then re-attachment: succeeds iff the inputs pass the two assertions, with the matching error otherwise; the segments partition the words between breaks; the plan joins the initial segments into runs, each within the cap and holding a too-short segment when it joins more than one, with durations the sums over the runs; the total is conserved; with non-decreasing end times every segment is settled |
| Segmentation.PartitionOfBreaks | synthesizer/preprocess.py:203-222 | segments built from increasing cuts into the breaks run back to back from position 0 to n-1, each between two breaks on empty words, and there are none exactly when there is a single word |
| Segmentation.InitialDurationsNonNegative | synthesizer/preprocess.py:204 | with non-decreasing end times every initial duration is non-negative |
| Segmentation.SplitOnSilences | synthesizer/preprocess.py:183-231 | the full algorithm without denoising: succeeds iff the inputs are well formed, with the matching error otherwise; on success the pieces are the extraction of a partition, there are no pieces exactly when there is a single word, the texts, spaces aside, spell out all the words in order, the plan is a re-attachment of the initial segments (runs within the cap, each joined run holding a too-short segment, durations the sums over the runs), and with non-decreasing end times every emitted segment is settled (long enough, or too long to join) |
| Segmentation.TextsCoverWords | synthesizer/preprocess.py:230 | the texts of a partition, with spaces dropped, concatenate to the words with spaces dropped: no word is lost or repeated |
| Segmentation.PySliceInRange | synthesizer/preprocess.py:229-230 | a Python slice with bounds inside the sequence is the plain subsequence |
| Segmentation.SpansOrdered | synthesizer/preprocess.py:227-229 | with non-negative, non-decreasing end times each piece's sample range is non-negative and well ordered, and consecutive ranges do not overlap |
| Utterance.ProcessUtterance | synthesizer/preprocess.py:249-275 | returns nothing exactly when skip-existing is set and the mel file exists, or the waveform is too short, or it has too many frames with clipping on; it writes the mel file exactly when it returns a record; the record holds the mel and embedding names of the base name, the sample and frame counts, the text, and the source path with every backslash turned into `/` |
| Utterance.ProcessUtteranceIdempotent | synthesizer/preprocess.py:249-252 | once the files of a first call exist, a second call with skip-existing set returns nothing and writes nothing |
| Utterance.ArtifactNamesInjective | synthesizer/preprocess.py:275 | different base names give different mel and embedding file names |
| Utterance.SubBasenameInjective | synthesizer/preprocess.py:168 | `"%s_%02d"` base names determine the recording name and the index |
| Utterance.UserBasename | synthesizer/preprocess.py:136 | the base name is the file name with each `/` replaced by `-` and every other character kept |
| Utterance.UserBasenameCollision | synthesizer/preprocess.py:136 | two file names give the same base name iff they have the same length and agree at every position once `/` is read as `-` |
| Utterance.UserBasenameCollides | synthesizer/preprocess.py:136-137 | the distinct names `a/b` and `a-b` get the same mel file name |
| Strings.JoinSplit | synthesizer/preprocess.py:36-41 | splitting on a one-character separator and joining with it gives back the string |
| Strings.SplitJoin | synthesizer/preprocess.py:36-41 | joining separator-free parts and splitting again gives back the parts |
| Strings.PyIntOfDecimal | synthesizer/preprocess.py:36-43 | `int(str(n))` is `n` for every natural number |
| Strings.Pad2Injective | synthesizer/preprocess.py:168 | `%02d` of different indices differ |
| Strings.WordsJoin | synthesizer/preprocess.py:152 | `split()` of words joined by single spaces gives back the words |
| Strings.ReadLinesConcat | synthesizer/preprocess.py:40-41 | reading back newline-terminated lines without other line breaks gives those lines |
| Strings.ReadLinesAppend | synthesizer/preprocess.py:27-41 | text appended after a complete last line reads back as the old lines followed by the new ones |
| Ledger.FormatLedgerAppend | synthesizer/preprocess.py:34-36 | writing two batches of records one after the other gives the ledger of all of them |
| Ledger.ReadRowsOfLedger | synthesizer/preprocess.py:36-41 | a ledger of clean records reads back as one row per record: its six columns, the text keeping the line's newline |
| Ledger.ReadRowsAfterAppend | synthesizer/preprocess.py:27-41 | appending to an existing ledger keeps its rows and adds the new ones after them |
| Ledger.LedgerRoundTrip | synthesizer/preprocess.py:36-41 | decoding the rows read back from a ledger of clean records gives exactly those records |
| Ledger.ColumnFailure | synthesizer/preprocess.py:42-43 | reading a count column fails iff some row has no number there; the error names the first such row and whether the column was missing or unreadable |
| Ledger.ColumnIs | synthesizer/preprocess.py:42-43 | a column with a number in every row reads as exactly those numbers |
| Ledger.TextLengthsFailure | synthesizer/preprocess.py:48 | measuring the texts fails exactly at the first row with no sixth column |
| Ledger.Largest | synthesizer/preprocess.py:48-50 | the maximum is one of the values and bounds every value |
| Ledger.SummarizeSucceeds | synthesizer/preprocess.py:42-50 | the statistics succeed iff the ledger has a row and every row has both counts and a text column |
| Ledger.SummarizeFailure | synthesizer/preprocess.py:42-50 | the errors come in evaluation order: frame column, then sample column, then the maximum of an empty ledger |
| Ledger.SummarizeOf | synthesizer/preprocess.py:42-50 | with all columns read, the report holds the row count, the sums and the maxima |
| Ledger.VerifyOfLedger | synthesizer/preprocess.py:36-50 | for a non-empty ledger of clean records, the statistics as written report the count, totals and maxima of the records, but the longest text one character too long |
| Ledger.VerifyCountsNewline | synthesizer/preprocess.py:48 | a single record with a two-character text is reported with a longest text of 3 |
| Ledger.VerifyCorrectedOfLedger | synthesizer/preprocess.py:36-50 | with the newline not counted, the statistics of a non-empty clean ledger are exactly the count, totals and maxima of its records |
| Ledger.VerifyEmpty | synthesizer/preprocess.py:48 | an empty ledger makes the statistics fail with the empty-maximum error |
| Corpus.UtteranceUser | synthesizer/preprocess.py:131-142 | fails iff the line does not unpack into two fields; a record comes back iff the recording exists and the utterance is not skipped, too short or too long; the record carries the text, the mel name of the `/`-free base name and the sample count |
| Corpus.UserLines | synthesizer/preprocess.py:113-126 | at most one record per transcript line; the existing paths only grow |
| Corpus.UserLinesRecords | synthesizer/preprocess.py:107-137 | every record the loop returns comes from one transcript line: it carries that line's text, the mel name of its file name with `/` turned into `-`, and the length of `wavs/<file name>.wav` |
| Corpus.UserLinesSucceeds | synthesizer/preprocess.py:107-132 | a transcript is processed to the end iff every line unpacks into two fields; otherwise the error is the fields of one of its lines |
| Corpus.SpeakerUser | synthesizer/preprocess.py:104-128 | existing paths only grow, and in append mode the old ledger is a prefix of the new one |
| Corpus.SpeakerUserRows | synthesizer/preprocess.py:110-128 | the ledger of one directory reads back as the kept rows (append mode only) followed by one row per new record |
| Corpus.UserLinesRerun | synthesizer/preprocess.py:113-137 | rerunning a transcript with skip-existing set, once the first run's files exist, adds no record and leaves the disk as it was |
| Corpus.SpeakerUserRerun | synthesizer/preprocess.py:104-128 | preprocessing a directory again with skip-existing set leaves the ledger and the disk unchanged |
| Corpus.UserLinesWritesNpy | synthesizer/preprocess.py:113-137 | the only paths a run adds are mel `.npy` files |
| Corpus.InputDirs | synthesizer/preprocess.py:74-77 | without a dataset list the root is the only input; otherwise input k is `<root>/<word k>` for every word of the list |
| Corpus.FirstMissing | synthesizer/preprocess.py:79 | no directory is reported iff all exist; a reported one is an input that does not exist |
| Corpus.PreprocessUser | synthesizer/preprocess.py:53-101 | a missing input directory is reported before any work, and a successful run had every input directory present |
| Corpus.PreprocessUserReport | synthesizer/preprocess.py:53-101 | a fresh run as written leaves only the last directory's ledger and reports its records with the longest text one too long; if the last directory keeps nothing, the run fails on the empty ledger whatever the others kept |
| Corpus.UserDirsKeepsLastOnly | synthesizer/preprocess.py:85-111 | as written without skip-existing, the final ledger holds only the last directory's records |
| Corpus.UserDirsLosesRows | synthesizer/preprocess.py:85-111 | whenever an earlier directory kept a record, the ledger as written is shorter than with one opening |
| Corpus.UserDirsCorrectedKeepsAll | synthesizer/preprocess.py:85-111 | with the ledger opened once, the final ledger is the kept ledger, then the earlier directories' lines, then the last directory's |
| Corpus.UserDirsFiles | synthesizer/preprocess.py:85-87 | the loop as written and the corrected loop fail together with the same error and end with the same disk |
| Corpus.UserDirsAppendAgrees | synthesizer/preprocess.py:85-111 | with skip-existing set, the loop as written and the corrected loop leave the same ledger |
| Corpus.PreprocessUserCorrected | synthesizer/preprocess.py:53-101 | a missing input directory is reported before any work, and a successful run had every input directory present |
| Corpus.PreprocessUserCorrectedReport | synthesizer/preprocess.py:85-101 | a fresh corrected run over clean records leaves exactly their ledger and reports their count, totals and maxima |
| Corpus.SubUtterances | synthesizer/preprocess.py:166-170 | the loop over `enumerate(zip(wavs, texts))` yields at most one record per pair and only adds paths |
| Corpus.SubUtterancesRecords | synthesizer/preprocess.py:166-170 | every record of the loop comes from one piece `k`: base name `<name>_<k>`, that piece's text and length |
| Corpus.LiveSubUtterance | synthesizer/preprocess.py:166-182 | over the live shortcut the loop is one `process_utterance` call for `<name>_00` with the whole waveform and the words joined |
| Corpus.SpeakerLine | synthesizer/preprocess.py:158-170 | fails iff the alignment line has no word or its recording is missing; otherwise at most one record, present iff not skipped, too short or too long, with the mel and embedding names of `<name>_00`, the remaining words joined and the recording's length; at most that mel file is added |
| Corpus.BookLines | synthesizer/preprocess.py:158-170 | at most one record per alignment line |
| Corpus.PreprocessSpeaker | synthesizer/preprocess.py:145-172 | there are no more records than alignment lines in the books that have a transcript, and existing paths only grow |
| Corpus.BookLinesRecords | synthesizer/preprocess.py:159-170 | every record comes from one alignment line: base name `<first word>_00`, text the other words joined |
| Corpus.PreprocessLibrispeech | synthesizer/preprocess.py:13-50 | a missing `wavs` directory is reported before any work; in append mode the old ledger is kept as a prefix |
| Corpus.LibrispeechReport | synthesizer/preprocess.py:27-50 | a fresh run over clean records writes exactly their ledger and reports their count, totals and maxima, with the longest text one too long |
| Corpus.LibrispeechNothingKept | synthesizer/preprocess.py:27-50 | a fresh run that keeps nothing ends in the empty-maximum error |
| ArgUtils.Priority | utils/argutils.py:5-21 | the rank is at most 5; a listed exact type gets its own index; otherwise the rank is below 5 iff the value is an instance of a listed class, and it is then the first such class's index |
| ArgUtils.BoolRanksAsBool | utils/argutils.py:14-17 | a `bool`, although an `int`, ranks 4 |
| ArgUtils.PathSubclassRanksAsPath | utils/argutils.py:18-20 | an unlisted subclass of `Path` ranks 0 |
| ArgUtils.ListedRanksAtItsPlace | utils/argutils.py:14-17 | a value of a listed class ranks at that class's index, whatever else it inherits from |
| ArgUtils.IndexOr | utils/argutils.py:37-38 | a known name gets the index of its first occurrence; an unknown name gets the length of the list |
| ArgUtils.Args2DictPermutes | utils/argutils.py:32-45 | the result holds exactly the input's name/value pairs, with multiplicity |
| ArgUtils.Args2DictSorted | utils/argutils.py:41-45 | every entry comes before each later one in (rank, name) order, rank first |
| ArgUtils.Args2DictRanked | utils/argutils.py:34-39 | each entry is ranked by `_priority` of its value, or by its name's place in the parser's list |
| ArgUtils.UnknownKeysLast | utils/argutils.py:37-41 | with a parser, names it does not list come after all names it lists |
| ArgUtils.InsertSorted | utils/argutils.py:41 | inserting into a sorted list keeps it sorted |
| ArgUtils.SortPermutes | utils/argutils.py:41 | sorting permutes the entries |
| ArgUtils.StrLessTotal | utils/argutils.py:41 | distinct names are ordered one way or the other |
| ArgUtils.StrLessTransitive | utils/argutils.py:41 | the name order is transitive |

## Left out

- Loading and resampling audio (`librosa.load`), peak rescaling and the mel
  transform (synthesizer/preprocess.py:178-179, 255-256, 263) are floating-point
  numerics in foreign libraries. Their results, the sample count and the
  mel-frame count, are inputs.
- Noise profiling and denoising (synthesizer/preprocess.py:195-200) is signal
  processing in a foreign library. The full segmentation algorithm keeps the
  waveform as given.
- Speaker embedding (`embed_utterance`, `create_embeddings`,
  synthesizer/preprocess.py:278-316) calls the encoder and does file I/O.
- synthesizer/utils/text.py wraps an external phoneme library whose behaviour
  is not visible.
- `print_args` only prints the result of `args2dict`.
- The worker pool runs directories, speakers and lines concurrently. The model
  runs them in order. Two workers racing on the same mel file name are not
  modelled.
- Progress bars, `print` reporting and `mkdir` of the output directories are
  left out.
- The `hours` figure is a float division for printing.
- Paths are joined as strings with `/`. pathlib's handling of absolute
  components and `..` is not modelled. Glob order is given by the order of
  the input sequences.
- Exceptions raised by the foreign audio code are left out. In the
  transcript-file layout the code catches them and skips the line. Only the
  missing-recording case of that `try` is modelled.
- When a run ends in an exception, the model reports the error only. The
  partially written ledger is not modelled.
- The argument names are compared by code point, as Python compares strings.
  numpy's handling of trailing NUL characters in string arrays is not
  modelled. The result is a sequence of entries in dictionary order; the
  parser is given as its list of destination names.
- Corpus.SpeakerLine: `preprocess_speaker` hands the in-memory waveform to
  `process_utterance`, whose `librosa.load` expects a path. The model
  processes each piece under the recording's path, with the piece's length as
  the sample count. What the foreign loader does with an array is not
  modelled.
- Corpus.LibrispeechReport: a fresh run writes the records' ledger only under
  the same substitution of the recording's path for the waveform.
- Strings.PyInt: Python's `int` also accepts a sign, underscores between
  digits and non-ASCII digits. The model reads unsigned ASCII digits only. The
  ledgers the program writes hold `str(n)`, which it reads back
  (`Strings.PyIntOfDecimal`).
- Ledger.ColumnFailure: with `Strings.PyInt` as the number reader, as the
  ledger reader uses it, a count such as `+5` or `-3`, which `int` accepts,
  counts as not a number.
- Ledger.SummarizeSucceeds: its success condition uses the same narrower
  number reader.
- Utterance.UserBasename: the model keeps the collision of base names and
  does not promise distinct mel files for distinct transcript names.
- Segmentation.Reattach: does not say which neighbour a too-short segment
  joins (the shorter one, the left one on a tie), only that every joined run
  stays within the cap and holds a too-short initial segment.
- Corpus.PreprocessUser: the ledger is a string that always exists. With a
  dataset list that has no word, the code opens a `train.txt` no run created
  and raises `FileNotFoundError` when it is absent; the model reads the empty
  ledger and reports `BadLedger(EmptyLedger)`. The same holds for
  `Corpus.PreprocessUserCorrected`.
- Corpus.UserLinesSucceeds: it states that the error carries the fields of
  some malformed line, not that the line is the first malformed one.

## Findings

| source | as written | input that shows it | evidently intended | confidence | as-written member | corrected member |
|---|---|---|---|---|---|---|
| synthesizer/preprocess.py:111 | `preprocess_user` calls `preprocess_speaker_user` once per dataset directory (lines 85-87), and each call reopens `train.txt` with `"w"` unless skip-existing is set | `datasets="a b"`, skip-existing off, each directory with one good transcript line: the ledger ends with only the line from `b` | the ledger holds the lines of every directory, as in `preprocess_librispeech`, which opens it once | high, not executed | Corpus.UserDirsKeepsLastOnly | Corpus.UserDirsCorrectedKeepsAll |
| synthesizer/preprocess.py:48 | "Max input length (text chars)" is `max(len(m[5]))` over rows split from lines that still end in `"\n"`; line 99 does the same | one record with text `ab`: the report says 3 | the length of the longest text, here 2 | medium, not executed | Ledger.VerifyCountsNewline | Ledger.VerifyCorrectedOfLedger |
