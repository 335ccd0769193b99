/** The drivers of the preprocessing: the transcript-file layout
    (`preprocess_user`, `preprocess_speaker_user`, `preprocess_utterance_user`)
    and the segment-annotated layout (`preprocess_librispeech`,
    `preprocess_speaker`). The disk is a set of existing paths plus the
    contents of the text files; the ledger file `train.txt` is a string. The
    worker pool is an order-preserving map, so every loop here runs in input
    order. */
module Corpus {
  import opened Wrappers
  import opened Strings
  import opened Utterance
  import opened Ledger
  import Segmentation

  /** What the foreign audio code would report for the recording at a path:
      the length of the loaded waveform and the frame count of its mel
      spectrogram. */
  datatype Audio = Audio(samples: string -> nat, melFrames: string -> nat)

  /** The fixed inputs of one preprocessing run. `texts` maps the path of each
      readable text file to its contents. */
  datatype Setup = Setup(
    outDir: string,
    skipExisting: bool,
    c: Config,
    audio: Audio,
    texts: map<string, string>)

  /** What the disk holds between steps: the ledger and the existing paths. */
  datatype State = State(ledger: string, files: set<string>)

  /** The exceptions that end a run. */
  datatype CorpusError =
    | MissingDirectory(path: string)       // assert input_dir.exists()
    | MissingTranscript(path: string)      // opening metadata.csv fails
    | MalformedLine(fields: seq<string>)   // `fname, text = line` unpacks badly
    | EmptyLine                            // `line[0]` of an empty alignment
    | MissingAudio(path: string)           // assert wav_fpath.exists(), not caught
    | BadLedger(error: LedgerError)        // the closing statistics raise

  /** The ledger statistics a finished run prints. */
  datatype Finished = Finished(state: State, report: Report)

  /** `process_utterance` on the recording at `path`. */
  function Process(path: string, text: string, basename: string, s: Setup, files: set<string>): Outcome {
    ProcessUtterance(path, s.audio.samples(path), s.audio.melFrames(path), text,
                     s.outDir, basename, s.skipExisting, files, s.c)
  }

  /** The existing paths after an utterance wrote its files. */
  function AddWritten(files: set<string>, o: Outcome): set<string> {
    files + set f | f in o.written
  }

  /** The records an outcome contributes to the ledger: none or one. */
  function Records(o: Outcome): (rs: seq<Record>)
    ensures |rs| <= 1
  {
    if o.record.Some? then [o.record.value] else []
  }

  /** A path the preprocessing writes: a mel file ending in `.npy`. */
  predicate IsNpy(p: string) {
    |p| >= 4 && p[|p| - 4..] == ".npy"
  }

  // ---------------------------------------------------------------------------
  // The transcript-file layout

  /** `speaker_dir.joinpath('wavs', fname + ".wav")` */
  function UserWavPath(dir: string, fname: string): string {
    dir + "/wavs/" + fname + ".wav"
  }

  /** `line.rstrip().split('\t')` */
  function TranscriptFields(line: string): seq<string> {
    Split(RStrip(line), '\t')
  }

  /** `preprocess_utterance_user`: a line must unpack into a file name and a
      text; a missing recording is reported and skipped. */
  function UtteranceUser(fields: seq<string>, dir: string, s: Setup, files: set<string>): (r: Result<Outcome, CorpusError>)
    ensures r.Failure? <==> |fields| != 2
    ensures r.Success? ==>
              var path := UserWavPath(dir, fields[0]);
              var b := UserBasename(fields[0]);
              && (r.value.record.Some? <==>
                    && path in files
                    && !(s.skipExisting && MelPath(s.outDir, b) in files)
                    && !TooShort(s.audio.samples(path), s.c)
                    && !TooLong(s.audio.melFrames(path), s.c))
              && (r.value.record.Some? ==>
                    && r.value.record.value.text == fields[1]
                    && r.value.record.value.melName == MelName(b)
                    && r.value.record.value.samples == s.audio.samples(path))
              && (r.value.written == [] || r.value.written == [MelPath(s.outDir, b)])
  {
    if |fields| != 2 then Failure(MalformedLine(fields))
    else
      var path := UserWavPath(dir, fields[0]);
      if path !in files then Success(Nothing)
      else Success(Process(path, fields[1], UserBasename(fields[0]), s, files))
  }

  /** The loop of `preprocess_speaker_user` over the lines of one transcript:
      the records to append, and the existing paths afterwards. */
  function UserLines(lines: seq<string>, dir: string, s: Setup, files: set<string>)
    : (r: Result<(seq<Record>, set<string>), CorpusError>)
    ensures r.Success? ==> |r.value.0| <= |lines| && files <= r.value.1
  {
    if |lines| == 0 then Success(([], files))
    else
      var o :- UtteranceUser(TranscriptFields(lines[0]), dir, s, files);
      var rest :- UserLines(lines[1..], dir, s, AddWritten(files, o));
      Success((Records(o) + rest.0, rest.1))
  }

  /** Record `r` is the one line `line` of a transcript in `dir` yields: the
      line's text, the mel name of its `/`-free file name, and the length of
      its recording. */
  predicate FromUserLine(r: Record, line: string, dir: string, s: Setup) {
    var f := TranscriptFields(line);
    && |f| == 2
    && r.text == f[1]
    && r.melName == MelName(UserBasename(f[0]))
    && r.samples == s.audio.samples(UserWavPath(dir, f[0]))
  }

  /** Every record the loop returns comes from one line of the transcript. */
  lemma {:induction false} UserLinesRecords(lines: seq<string>, dir: string, s: Setup, files: set<string>)
    requires UserLines(lines, dir, s, files).Success?
    ensures forall r :: r in UserLines(lines, dir, s, files).value.0 ==>
              exists k :: 0 <= k < |lines| && FromUserLine(r, lines[k], dir, s)
  {
    if |lines| > 0 {
      var o := UtteranceUser(TranscriptFields(lines[0]), dir, s, files).value;
      UserLinesRecords(lines[1..], dir, s, AddWritten(files, o));
      var rest := UserLines(lines[1..], dir, s, AddWritten(files, o)).value.0;
      forall r | r in Records(o) + rest
        ensures exists k :: 0 <= k < |lines| && FromUserLine(r, lines[k], dir, s)
      {
        if r in Records(o) {
          assert FromUserLine(r, lines[0], dir, s);
        } else {
          var k :| 0 <= k < |lines[1..]| && FromUserLine(r, lines[1..][k], dir, s);
          assert lines[1..][k] == lines[k + 1];
        }
      }
    }
  }

  predicate Unpackable(lines: seq<string>) {
    forall k :: 0 <= k < |lines| ==> |TranscriptFields(lines[k])| == 2
  }

  /** A transcript is processed to the end exactly when every line holds one
      tab-separated file name and text; otherwise a bad line ends the run and
      the error carries its fields. */
  lemma {:induction false} UserLinesSucceeds(lines: seq<string>, dir: string, s: Setup, files: set<string>)
    ensures UserLines(lines, dir, s, files).Success? <==> Unpackable(lines)
    ensures UserLines(lines, dir, s, files).Failure? ==>
              exists k :: 0 <= k < |lines| &&
                UserLines(lines, dir, s, files).error == MalformedLine(TranscriptFields(lines[k]))
  {
    if |lines| > 0 {
      var o := UtteranceUser(TranscriptFields(lines[0]), dir, s, files);
      if o.Success? {
        UserLinesSucceeds(lines[1..], dir, s, AddWritten(files, o.value));
        if UserLines(lines[1..], dir, s, AddWritten(files, o.value)).Failure? {
          var k :| 0 <= k < |lines[1..]| &&
            UserLines(lines[1..], dir, s, AddWritten(files, o.value)).error
              == MalformedLine(TranscriptFields(lines[1..][k]));
          assert lines[1..][k] == lines[k + 1];
        }
        assert Unpackable(lines) <==> Unpackable(lines[1..]) by {
          if Unpackable(lines[1..]) {
            forall k | 0 <= k < |lines|
              ensures |TranscriptFields(lines[k])| == 2
            {
              if k > 0 {
                assert lines[k] == lines[1..][k - 1];
              }
            }
          }
          if Unpackable(lines) {
            forall k | 0 <= k < |lines[1..]|
              ensures |TranscriptFields(lines[1..][k])| == 2
            {
              assert lines[1..][k] == lines[k + 1];
            }
          }
        }
      }
    }
  }

  /** The records of one dataset directory, read from its `metadata.csv`. */
  function DirRecords(dir: string, s: Setup, files: set<string>)
    : (r: Result<(seq<Record>, set<string>), CorpusError>)
    ensures r.Success? ==> files <= r.value.1
  {
    var path := dir + "/metadata.csv";
    if path !in s.texts then Failure(MissingTranscript(path))
    else UserLines(ReadLines(s.texts[path]), dir, s, files)
  }

  /** The ledger as `open(..., "a" if skip_existing else "w")` leaves it. */
  function Opened(ledger: string, s: Setup): string {
    if s.skipExisting then ledger else ""
  }

  /** `preprocess_speaker_user`: the ledger is reopened (and, unless existing
      files are skipped, emptied) for every dataset directory. */
  function SpeakerUser(dir: string, s: Setup, st: State): (r: Result<State, CorpusError>)
    ensures r.Success? ==> st.files <= r.value.files
    ensures r.Success? && s.skipExisting ==> st.ledger <= r.value.ledger
  {
    var p :- DirRecords(dir, s, st.files);
    Success(State(Opened(st.ledger, s) + FormatLedger(p.0), p.1))
  }

  /** Reading back the ledger of one directory gives the rows kept from
      before (only when appending) followed by one row per new record. */
  lemma SpeakerUserRows(dir: string, s: Setup, st: State, rs: seq<Record>, files: set<string>)
    requires DirRecords(dir, s, st.files) == Success((rs, files))
    requires AllClean(rs)
    requires |st.ledger| == 0 || st.ledger[|st.ledger| - 1] == '\n'
    requires '\r' !in st.ledger
    ensures SpeakerUser(dir, s, st).Success?
    ensures ReadRows(SpeakerUser(dir, s, st).value.ledger)
            == (if s.skipExisting then ReadRows(st.ledger) else []) + RowsOf(rs)
  {
    ReadRowsAfterAppend(Opened(st.ledger, s), rs);
    if !s.skipExisting {
      assert ReadRows("") == [] by {
        assert ReadLines("") == [];
      }
    }
  }

  /** Running the lines again with skip-existing set, once the mel files of
      the first run are on disk, adds no record and writes nothing. */
  lemma {:induction false} UserLinesRerun(lines: seq<string>, dir: string, s: Setup, files: set<string>,
                                          rs: seq<Record>, after: set<string>)
    requires UserLines(lines, dir, s, files) == Success((rs, after))
    requires forall p :: p in after && p !in files ==> IsNpy(p)
    ensures UserLines(lines, dir, s.(skipExisting := true), after) == Success(([], after))
  {
    if |lines| > 0 {
      var fields := TranscriptFields(lines[0]);
      var o := UtteranceUser(fields, dir, s, files).value;
      var files' := AddWritten(files, o);
      var rest := UserLines(lines[1..], dir, s, files').value;
      assert files' <= after;
      RerunLine(fields, dir, s, files, after);
      UserLinesRerun(lines[1..], dir, s, files', rest.0, after);
      assert AddWritten(after, Nothing) == after;
    }
  }

  /** One line of the rerun: its recording is still present exactly when it
      was before, and its mel file, if one was written, is on disk. */
  lemma RerunLine(fields: seq<string>, dir: string, s: Setup, files: set<string>, after: set<string>)
    requires UtteranceUser(fields, dir, s, files).Success?
    requires AddWritten(files, UtteranceUser(fields, dir, s, files).value) <= after
    requires forall p :: p in after && p !in files ==> IsNpy(p)
    ensures UtteranceUser(fields, dir, s.(skipExisting := true), after) == Success(Nothing)
  {
    var path := UserWavPath(dir, fields[0]);
    var b := UserBasename(fields[0]);
    if path in files {
      var o := UtteranceUser(fields, dir, s, files).value;
      assert forall f :: f in o.written ==> f in after;
      ProcessUtteranceIdempotent(path, s.audio.samples(path), s.audio.melFrames(path), fields[1],
                                 s.outDir, b, s.skipExisting, files, after, s.c);
    } else {
      WavIsNotNpy(dir, fields[0]);
    }
  }

  lemma WavIsNotNpy(dir: string, fname: string)
    ensures !IsNpy(UserWavPath(dir, fname))
  {
    var p := UserWavPath(dir, fname);
    assert p[|p| - 1] == 'v';
    assert |p| >= 4 ==> p[|p| - 4..][3] == p[|p| - 1];
  }

  /** Preprocessing one directory a second time with skip-existing set leaves
      the ledger and the disk as the first run left them. */
  lemma SpeakerUserRerun(dir: string, s: Setup, st: State)
    requires SpeakerUser(dir, s, st).Success?
    ensures forall p :: p in SpeakerUser(dir, s, st).value.files && p !in st.files ==> IsNpy(p)
    ensures SpeakerUser(dir, s.(skipExisting := true), SpeakerUser(dir, s, st).value)
            == Success(SpeakerUser(dir, s, st).value)
  {
    var path := dir + "/metadata.csv";
    var lines := ReadLines(s.texts[path]);
    var p := DirRecords(dir, s, st.files).value;
    UserLinesWritesNpy(lines, dir, s, st.files);
    UserLinesRerun(lines, dir, s, st.files, p.0, p.1);
    var first := SpeakerUser(dir, s, st).value;
    assert FormatLedger([]) == "";
    assert first.ledger + "" == first.ledger;
  }

  /** The only paths a run adds to the disk are mel files. */
  lemma {:induction false} UserLinesWritesNpy(lines: seq<string>, dir: string, s: Setup, files: set<string>)
    requires UserLines(lines, dir, s, files).Success?
    ensures forall p :: p in UserLines(lines, dir, s, files).value.1 && p !in files ==> IsNpy(p)
  {
    if |lines| > 0 {
      var fields := TranscriptFields(lines[0]);
      var o := UtteranceUser(fields, dir, s, files).value;
      UserLinesWritesNpy(lines[1..], dir, s, AddWritten(files, o));
      if o.written != [] {
        MelPathIsNpy(s.outDir, UserBasename(fields[0]));
      }
    }
  }

  lemma MelPathIsNpy(outDir: string, b: string)
    ensures IsNpy(MelPath(outDir, b))
  {
    var p := MelPath(outDir, b);
    assert p == outDir + "/mels/mel-" + b + ".npy";
    assert p[|p| - 4..] == ".npy";
  }

  // ---------------------------------------------------------------------------
  // `preprocess_user`: several dataset directories

  /** `[datasets_root]`, or `datasets_root.joinpath(w)` for every word of the
      dataset list. */
  function InputDirs(root: string, datasets: Option<string>): (dirs: seq<string>)
    ensures datasets.None? ==> dirs == [root]
    ensures datasets.Some? ==> |dirs| == |Words(datasets.value)|
    ensures datasets.Some? ==>
              forall k :: 0 <= k < |dirs| ==> dirs[k] == root + "/" + Words(datasets.value)[k]
  {
    if datasets.None? then [root] else Under(root, Words(datasets.value))
  }

  function Under(root: string, names: seq<string>): (dirs: seq<string>)
    ensures |dirs| == |names|
    ensures forall k :: 0 <= k < |names| ==> dirs[k] == root + "/" + names[k]
  {
    if |names| == 0 then [] else [root + "/" + names[0]] + Under(root, names[1..])
  }

  /** The first input directory that does not exist. */
  function FirstMissing(dirs: seq<string>, files: set<string>): (m: Option<string>)
    ensures m.None? <==> forall k :: 0 <= k < |dirs| ==> dirs[k] in files
    ensures m.Some? ==> m.value !in files && m.value in dirs
  {
    if |dirs| == 0 then None
    else if dirs[0] !in files then Some(dirs[0])
    else FirstMissing(dirs[1..], files)
  }

  /** The loop of `preprocess_user` over the directories, as written: each
      directory reopens the ledger. The last directory is peeled off so that
      the ledger of the final step is in view. */
  function UserDirs(dirs: seq<string>, s: Setup, st: State): (r: Result<State, CorpusError>)
    ensures r.Success? ==> st.files <= r.value.files
  {
    if |dirs| == 0 then Success(st)
    else
      var before :- UserDirs(dirs[..|dirs| - 1], s, st);
      SpeakerUser(dirs[|dirs| - 1], s, before)
  }

  /** The records of all directories in order, and the paths afterwards. */
  function CollectUser(dirs: seq<string>, s: Setup, files: set<string>)
    : (r: Result<(seq<Record>, set<string>), CorpusError>)
    ensures r.Success? ==> files <= r.value.1
  {
    if |dirs| == 0 then Success(([], files))
    else
      var p :- CollectUser(dirs[..|dirs| - 1], s, files);
      var q :- DirRecords(dirs[|dirs| - 1], s, p.1);
      Success((p.0 + q.0, q.1))
  }

  /** The loop with the ledger opened once, before the first directory, as
      `preprocess_librispeech` does. */
  function UserDirsCorrected(dirs: seq<string>, s: Setup, st: State): (r: Result<State, CorpusError>)
  {
    var p :- CollectUser(dirs, s, st.files);
    Success(State(Opened(st.ledger, s) + FormatLedger(p.0), p.1))
  }

  /** The earlier directories yield `rs0` and leave the paths `f0`; the last
      one then yields `rs1` and leaves `f1`. */
  predicate Collected(dirs: seq<string>, s: Setup, files: set<string>,
                      rs0: seq<Record>, f0: set<string>, rs1: seq<Record>, f1: set<string>)
    requires |dirs| > 0
  {
    && CollectUser(dirs[..|dirs| - 1], s, files) == Success((rs0, f0))
    && DirRecords(dirs[|dirs| - 1], s, f0) == Success((rs1, f1))
  }

  /** The corrected loop keeps every directory's lines: its ledger is the kept
      ledger, then the lines of the earlier directories, then those of the
      last one; and the two loops meet the same disk and the same errors. */
  lemma UserDirsCorrectedKeepsAll(dirs: seq<string>, s: Setup, st: State,
                                  rs0: seq<Record>, f0: set<string>, rs1: seq<Record>, f1: set<string>)
    requires |dirs| > 0
    ensures Collected(dirs, s, st.files, rs0, f0, rs1, f1) ==>
              UserDirsCorrected(dirs, s, st)
              == Success(State(Opened(st.ledger, s) + FormatLedger(rs0) + FormatLedger(rs1), f1))
  {
    if Collected(dirs, s, st.files, rs0, f0, rs1, f1) {
      CollectUserStep(dirs, s, st.files, rs0, f0, rs1, f1);
      FormatLedgerAppend(rs0, rs1);
      AppendAssoc(Opened(st.ledger, s), FormatLedger(rs0), FormatLedger(rs1));
    }
  }

  lemma CollectUserStep(dirs: seq<string>, s: Setup, files: set<string>,
                        rs0: seq<Record>, f0: set<string>, rs1: seq<Record>, f1: set<string>)
    requires |dirs| > 0
    ensures CollectUser(dirs[..|dirs| - 1], s, files) == Success((rs0, f0)) &&
            DirRecords(dirs[|dirs| - 1], s, f0) == Success((rs1, f1)) ==>
              CollectUser(dirs, s, files) == Success((rs0 + rs1, f1))
  {
  }

  lemma UserDirsStep(dirs: seq<string>, s: Setup, st: State)
    requires |dirs| > 0
    ensures UserDirs(dirs[..|dirs| - 1], s, st).Success? ==>
              UserDirs(dirs, s, st) == SpeakerUser(dirs[|dirs| - 1], s, UserDirs(dirs[..|dirs| - 1], s, st).value)
  {
  }

  /** As written, without skip-existing, only the last directory's lines
      survive: each `preprocess_speaker_user` call truncates the ledger. */
  lemma UserDirsKeepsLastOnly(dirs: seq<string>, s: Setup, st: State,
                              rs0: seq<Record>, f0: set<string>, rs1: seq<Record>, f1: set<string>)
    requires |dirs| > 0 && !s.skipExisting
    ensures Collected(dirs, s, st.files, rs0, f0, rs1, f1) ==>
              UserDirs(dirs, s, st) == Success(State(FormatLedger(rs1), f1))
  {
    if Collected(dirs, s, st.files, rs0, f0, rs1, f1) {
      var init := dirs[..|dirs| - 1];
      UserDirsFiles(init, s, st);
      var before := UserDirs(init, s, st).value;
      UserDirsStep(dirs, s, st);
      assert before.files == f0;
      assert Opened(before.ledger, s) + FormatLedger(rs1) == FormatLedger(rs1);
    }
  }

  /** Whenever the earlier directories produced a record, the two loops leave
      different ledgers. */
  lemma UserDirsLosesRows(dirs: seq<string>, s: Setup, st: State,
                          rs0: seq<Record>, f0: set<string>, rs1: seq<Record>, f1: set<string>)
    requires |dirs| > 0 && !s.skipExisting && |rs0| > 0
    ensures Collected(dirs, s, st.files, rs0, f0, rs1, f1) ==>
              && UserDirs(dirs, s, st).Success?
              && UserDirsCorrected(dirs, s, st).Success?
              && |UserDirs(dirs, s, st).value.ledger| < |UserDirsCorrected(dirs, s, st).value.ledger|
  {
    UserDirsKeepsLastOnly(dirs, s, st, rs0, f0, rs1, f1);
    UserDirsCorrectedKeepsAll(dirs, s, st, rs0, f0, rs1, f1);
    FormatLedgerNonEmpty(rs0);
  }

  lemma FormatLedgerNonEmpty(rs: seq<Record>)
    requires |rs| > 0
    ensures |FormatLedger(rs)| > 0
  {
    assert FormatLedger(rs) == FormatLine(rs[0]) + FormatLedger(rs[1..]);
    assert FormatLine(rs[0]) == Join("|", Fields(rs[0])) + "\n";
  }

  /** Both loops visit the same directories against the same disk, so they
      fail together and end with the same paths. */
  lemma {:induction false} UserDirsFiles(dirs: seq<string>, s: Setup, st: State)
    ensures UserDirs(dirs, s, st).Success? <==> CollectUser(dirs, s, st.files).Success?
    ensures UserDirs(dirs, s, st).Success? ==>
              UserDirs(dirs, s, st).value.files == CollectUser(dirs, s, st.files).value.1
    ensures UserDirs(dirs, s, st).Failure? ==>
              UserDirs(dirs, s, st).error == CollectUser(dirs, s, st.files).error
  {
    if |dirs| > 0 {
      UserDirsFiles(dirs[..|dirs| - 1], s, st);
    }
  }

  /** With skip-existing set both loops append, so they agree. */
  lemma {:induction false} UserDirsAppendAgrees(dirs: seq<string>, s: Setup, st: State)
    requires s.skipExisting
    ensures UserDirs(dirs, s, st) == UserDirsCorrected(dirs, s, st)
  {
    if |dirs| == 0 {
      assert FormatLedger([]) == "";
      assert st.ledger + "" == st.ledger;
    } else {
      var init := dirs[..|dirs| - 1];
      UserDirsAppendAgrees(init, s, st);
      var p := CollectUser(init, s, st.files);
      if p.Success? {
        var before := UserDirs(init, s, st).value;
        UserDirsStep(dirs, s, st);
        var q := DirRecords(dirs[|dirs| - 1], s, p.value.1);
        if q.Success? {
          CollectUserStep(dirs, s, st.files, p.value.0, p.value.1, q.value.0, q.value.1);
          FormatLedgerAppend(p.value.0, q.value.0);
          AppendAssoc(st.ledger, FormatLedger(p.value.0), FormatLedger(q.value.0));
        }
      }
    }
  }

  /** Lift a failure of the closing statistics into the run's errors. */
  function Statistics(ledger: string, corrected: bool): (r: Result<Report, CorpusError>)
    ensures r.Failure? ==> r.error.BadLedger?
  {
    match (if corrected then VerifyCorrected(ledger) else Verify(ledger))
    case Success(report) => Success(report)
    case Failure(e) => Failure(BadLedger(e))
  }

  /** `preprocess_user` as written. */
  function PreprocessUser(root: string, datasets: Option<string>, s: Setup, st: State)
    : (r: Result<Finished, CorpusError>)
    ensures FirstMissing(InputDirs(root, datasets), st.files).Some? ==>
              r == Failure(MissingDirectory(FirstMissing(InputDirs(root, datasets), st.files).value))
    ensures r.Success? ==> forall d :: d in InputDirs(root, datasets) ==> d in st.files
  {
    var dirs := InputDirs(root, datasets);
    var missing := FirstMissing(dirs, st.files);
    if missing.Some? then Failure(MissingDirectory(missing.value))
    else
      var after :- UserDirs(dirs, s, st);
      var report :- Statistics(after.ledger, false);
      Success(Finished(after, report))
  }

  /** A fresh run as written ends with the last directory's ledger only, and
      its statistics count the texts with their newline: the earlier
      directories' records are neither in the ledger nor in the report, and
      when the last directory keeps nothing the run fails on an empty ledger
      whatever the others kept. */
  lemma PreprocessUserReport(root: string, datasets: Option<string>, s: Setup, st: State,
                             rs0: seq<Record>, f0: set<string>, rs1: seq<Record>, f1: set<string>)
    requires !s.skipExisting && |InputDirs(root, datasets)| > 0
    requires forall d :: d in InputDirs(root, datasets) ==> d in st.files
    ensures Collected(InputDirs(root, datasets), s, st.files, rs0, f0, rs1, f1) && AllClean(rs1) && |rs1| > 0 ==>
              PreprocessUser(root, datasets, s, st)
              == Success(Finished(State(FormatLedger(rs1), f1),
                                  Expected(rs1).(maxTextLength := Expected(rs1).maxTextLength + 1)))
    ensures Collected(InputDirs(root, datasets), s, st.files, rs0, f0, rs1, f1) && |rs1| == 0 ==>
              PreprocessUser(root, datasets, s, st) == Failure(BadLedger(EmptyLedger))
  {
    var dirs := InputDirs(root, datasets);
    if Collected(dirs, s, st.files, rs0, f0, rs1, f1) {
      assert FirstMissing(dirs, st.files).None?;
      UserDirsKeepsLastOnly(dirs, s, st, rs0, f0, rs1, f1);
      if |rs1| == 0 {
        VerifyEmpty();
        assert FormatLedger(rs1) == "";
      } else if AllClean(rs1) {
        VerifyOfLedger(rs1);
      }
    }
  }

  /** `preprocess_user` with the ledger opened once and the statistics
      measuring the texts themselves. */
  function PreprocessUserCorrected(root: string, datasets: Option<string>, s: Setup, st: State)
    : (r: Result<Finished, CorpusError>)
    ensures FirstMissing(InputDirs(root, datasets), st.files).Some? ==>
              r == Failure(MissingDirectory(FirstMissing(InputDirs(root, datasets), st.files).value))
    ensures r.Success? ==> forall d :: d in InputDirs(root, datasets) ==> d in st.files
  {
    var dirs := InputDirs(root, datasets);
    var missing := FirstMissing(dirs, st.files);
    if missing.Some? then Failure(MissingDirectory(missing.value))
    else
      var after :- UserDirsCorrected(dirs, s, st);
      var report :- Statistics(after.ledger, true);
      Success(Finished(after, report))
  }

  /** A fresh corrected run over clean records reports exactly their count,
      totals and maxima. */
  lemma PreprocessUserCorrectedReport(root: string, datasets: Option<string>, s: Setup, st: State,
                                      rs: seq<Record>, files: set<string>)
    requires !s.skipExisting
    requires forall d :: d in InputDirs(root, datasets) ==> d in st.files
    requires CollectUser(InputDirs(root, datasets), s, st.files) == Success((rs, files))
    requires AllClean(rs) && |rs| > 0
    ensures PreprocessUserCorrected(root, datasets, s, st)
            == Success(Finished(State(FormatLedger(rs), files), Expected(rs)))
  {
    var dirs := InputDirs(root, datasets);
    assert FirstMissing(dirs, st.files).None?;
    var after := State(FormatLedger(rs), files);
    assert UserDirsCorrected(dirs, s, st) == Success(after) by {
      assert Opened(st.ledger, s) + FormatLedger(rs) == FormatLedger(rs);
    }
    VerifyCorrectedOfLedger(rs);
    assert Statistics(after.ledger, true) == Success(Expected(rs));
  }

  // ---------------------------------------------------------------------------
  // The segment-annotated layout

  /** A book directory and the contents of its first `*.trans.txt`, if any. */
  datatype Book = Book(dir: string, transcript: Option<string>)

  /** A recording's waveform as far as the model sees it: its length. */
  function Waveform(a: Audio, path: string): (wav: seq<()>)
    ensures |wav| == a.samples(path)
  {
    seq(a.samples(path), k => ())
  }

  /** How many pairs `zip(wavs, texts)` yields. */
  function Zipped<S>(p: Segmentation.Pieces<S>): nat {
    if |p.wavs| <= |p.texts| then |p.wavs| else |p.texts|
  }

  /** The loop `for i, (wav, text) in enumerate(zip(wavs, texts))` of
      `preprocess_speaker`, from index `i` on: piece `i` of the recording
      `name` at `path` is processed under the base name `<name>_<i>`. */
  function SubUtterances<S>(path: string, name: string, p: Segmentation.Pieces<S>, i: nat,
                            s: Setup, files: set<string>): (r: (seq<Record>, set<string>))
    requires i <= Zipped(p)
    ensures |r.0| <= Zipped(p) - i
    ensures files <= r.1
    decreases Zipped(p) - i
  {
    if i == Zipped(p) then ([], files)
    else
      var o := ProcessUtterance(path, |p.wavs[i]|, s.audio.melFrames(path), p.texts[i],
                                s.outDir, SubBasename(name, i), s.skipExisting, files, s.c);
      var rest := SubUtterances(path, name, p, i + 1, s, AddWritten(files, o));
      (Records(o) + rest.0, rest.1)
  }

  /** Every record of the loop comes from one piece: it carries that piece's
      index in its base name, its text and its length. */
  lemma {:induction false} SubUtterancesRecords<S>(path: string, name: string, p: Segmentation.Pieces<S>, i: nat,
                                                   s: Setup, files: set<string>)
    requires i <= Zipped(p)
    ensures forall rec :: rec in SubUtterances(path, name, p, i, s, files).0 ==>
              exists k :: i <= k < Zipped(p)
                && rec.melName == MelName(SubBasename(name, k))
                && rec.embedName == EmbedName(SubBasename(name, k))
                && rec.text == p.texts[k]
                && rec.samples == |p.wavs[k]|
    decreases Zipped(p) - i
  {
    if i < Zipped(p) {
      var o := ProcessUtterance(path, |p.wavs[i]|, s.audio.melFrames(path), p.texts[i],
                                s.outDir, SubBasename(name, i), s.skipExisting, files, s.c);
      SubUtterancesRecords(path, name, p, i + 1, s, AddWritten(files, o));
    }
  }

  /** Over the live `split_on_silences` the loop runs once: sub-utterance
      `<name>_00` with the whole waveform and the words joined. */
  lemma LiveSubUtterance<S>(path: string, name: string, wav: seq<S>, words: seq<string>,
                            s: Setup, files: set<string>)
    ensures var o := ProcessUtterance(path, |wav|, s.audio.melFrames(path), Concat(words),
                                      s.outDir, SubBasename(name, 0), s.skipExisting, files, s.c);
            SubUtterances(path, name, Segmentation.SplitOnSilencesLive(wav, words), 0, s, files)
            == (Records(o), AddWritten(files, o))
  {
    var p := Segmentation.SplitOnSilencesLive(wav, words);
    assert Zipped(p) == 1 && p.wavs[0] == wav && p.texts[0] == Concat(words);
    var o := ProcessUtterance(path, |wav|, s.audio.melFrames(path), Concat(words),
                              s.outDir, SubBasename(name, 0), s.skipExisting, files, s.c);
    assert SubUtterances(path, name, p, 1, s, AddWritten(files, o)) == ([], AddWritten(files, o));
    assert Records(o) + [] == Records(o);
  }

  /** One alignment line of `preprocess_speaker`: the first word names the
      recording, the rest are its words; each piece `split_on_silences`
      returns becomes a sub-utterance. */
  function SpeakerLine(book: string, line: string, s: Setup, files: set<string>)
    : (r: Result<(seq<Record>, set<string>), CorpusError>)
    ensures r.Failure? <==>
              |Words(RStrip(line))| == 0 || book + "/" + Words(RStrip(line))[0] + ".wav" !in files
    ensures r.Success? ==>
              var w := Words(RStrip(line));
              var path := book + "/" + w[0] + ".wav";
              var b := SubBasename(w[0], 0);
              && |r.value.0| <= 1
              && (|r.value.0| == 1 <==>
                    && !(s.skipExisting && MelPath(s.outDir, b) in files)
                    && !TooShort(s.audio.samples(path), s.c)
                    && !TooLong(s.audio.melFrames(path), s.c))
              && (forall rec :: rec in r.value.0 ==>
                    && rec.melName == MelName(b)
                    && rec.embedName == EmbedName(b)
                    && rec.text == Concat(w[1..])
                    && rec.samples == s.audio.samples(path))
              && (r.value.1 == files || r.value.1 == files + {MelPath(s.outDir, b)})
  {
    var w := Words(RStrip(line));
    if |w| == 0 then Failure(EmptyLine)
    else
      var path := book + "/" + w[0] + ".wav";
      if path !in files then Failure(MissingAudio(path))
      else
        var wav := Waveform(s.audio, path);
        LiveSubUtterance(path, w[0], wav, w[1..], s, files);
        Success(SubUtterances(path, w[0], Segmentation.SplitOnSilencesLive(wav, w[1..]), 0, s, files))
  }

  /** The loop over the alignment lines of one book. */
  function BookLines(book: string, lines: seq<string>, s: Setup, files: set<string>)
    : (r: Result<(seq<Record>, set<string>), CorpusError>)
    ensures r.Success? ==> |r.value.0| <= |lines| && files <= r.value.1
  {
    if |lines| == 0 then Success(([], files))
    else
      var p :- SpeakerLine(book, lines[0], s, files);
      var rest :- BookLines(book, lines[1..], s, p.1);
      Success((p.0 + rest.0, rest.1))
  }

  /** The number of alignment lines in the books that have a transcript. */
  function LineCount(books: seq<Book>): nat {
    if |books| == 0 then 0
    else (if books[0].transcript.Some? then |ReadLines(books[0].transcript.value)| else 0)
         + LineCount(books[1..])
  }

  /** `preprocess_speaker`: books without a transcript are skipped. */
  function PreprocessSpeaker(books: seq<Book>, s: Setup, files: set<string>)
    : (r: Result<(seq<Record>, set<string>), CorpusError>)
    ensures r.Success? ==> |r.value.0| <= LineCount(books) && files <= r.value.1
  {
    if |books| == 0 then Success(([], files))
    else if books[0].transcript.None? then PreprocessSpeaker(books[1..], s, files)
    else
      var p :- BookLines(books[0].dir, ReadLines(books[0].transcript.value), s, files);
      var q :- PreprocessSpeaker(books[1..], s, p.1);
      Success((p.0 + q.0, q.1))
  }

  /** Every record of a book carries the sub-utterance base name `<name>_00`
      of the line it came from, and that line's words joined. */
  lemma {:induction false} BookLinesRecords(book: string, lines: seq<string>, s: Setup, files: set<string>)
    requires BookLines(book, lines, s, files).Success?
    ensures forall r :: r in BookLines(book, lines, s, files).value.0 ==>
              exists k :: 0 <= k < |lines| && FromLine(r, lines[k])
  {
    if |lines| > 0 {
      var p := SpeakerLine(book, lines[0], s, files).value;
      BookLinesRecords(book, lines[1..], s, p.1);
      var rest := BookLines(book, lines[1..], s, p.1).value.0;
      forall r | r in p.0 + rest
        ensures exists k :: 0 <= k < |lines| && FromLine(r, lines[k])
      {
        if r in p.0 {
          assert FromLine(r, lines[0]);
        } else {
          var k :| 0 <= k < |lines[1..]| && FromLine(r, lines[1..][k]);
          assert lines[1..][k] == lines[k + 1];
        }
      }
    }
  }

  /** `r` is the record of the alignment line `line`. */
  predicate FromLine(r: Record, line: string) {
    var w := Words(RStrip(line));
    && |w| > 0
    && r.melName == MelName(SubBasename(w[0], 0))
    && r.text == Concat(w[1..])
  }

  /** The speakers one after the other. */
  function Speakers(speakers: seq<seq<Book>>, s: Setup, files: set<string>)
    : (r: Result<(seq<Record>, set<string>), CorpusError>)
    ensures r.Success? ==> files <= r.value.1
  {
    if |speakers| == 0 then Success(([], files))
    else
      var p :- PreprocessSpeaker(speakers[0], s, files);
      var q :- Speakers(speakers[1..], s, p.1);
      Success((p.0 + q.0, q.1))
  }

  /** `preprocess_librispeech`: the speaker directories under `<root>/wavs`,
      one ledger opened for the whole run. */
  function PreprocessLibrispeech(root: string, speakers: seq<seq<Book>>, s: Setup, st: State)
    : (r: Result<Finished, CorpusError>)
    ensures root + "/wavs" !in st.files ==> r == Failure(MissingDirectory(root + "/wavs"))
    ensures r.Success? ==> Speakers(speakers, s, st.files).Success?
    ensures r.Success? && s.skipExisting ==> st.ledger <= r.value.state.ledger
  {
    var wavs := root + "/wavs";
    if wavs !in st.files then Failure(MissingDirectory(wavs))
    else
      var p :- Speakers(speakers, s, st.files);
      var ledger := Opened(st.ledger, s) + FormatLedger(p.0);
      var report :- Statistics(ledger, false);
      Success(Finished(State(ledger, p.1), report))
  }

  /** A fresh run over clean records reports their count, totals and maxima,
      except that the longest text is counted with its line's newline. */
  lemma LibrispeechReport(root: string, speakers: seq<seq<Book>>, s: Setup, st: State,
                          rs: seq<Record>, files: set<string>)
    requires !s.skipExisting && root + "/wavs" in st.files
    requires Speakers(speakers, s, st.files) == Success((rs, files))
    requires AllClean(rs) && |rs| > 0
    ensures PreprocessLibrispeech(root, speakers, s, st)
            == Success(Finished(State(FormatLedger(rs), files),
                                Expected(rs).(maxTextLength := Expected(rs).maxTextLength + 1)))
  {
    VerifyOfLedger(rs);
    assert "" + FormatLedger(rs) == FormatLedger(rs);
  }

  /** A fresh run that keeps no utterance ends in the statistics' error: the
      maximum of an empty column. */
  lemma LibrispeechNothingKept(root: string, speakers: seq<seq<Book>>, s: Setup, st: State,
                               files: set<string>)
    requires !s.skipExisting && root + "/wavs" in st.files
    requires Speakers(speakers, s, st.files) == Success(([], files))
    ensures PreprocessLibrispeech(root, speakers, s, st) == Failure(BadLedger(EmptyLedger))
  {
    VerifyEmpty();
    assert "" + FormatLedger([]) == "";
  }
}
