/** The per-utterance keep/discard decision of `process_utterance`, the ledger
    record it builds, and the base names the two corpus layouts derive artifact
    file names from. Loading and resampling the audio and computing the mel
    spectrogram are outside the model: their observable results, the waveform
    length in samples and the mel-frame count, are inputs. */
module Utterance {
  import opened Wrappers
  import opened Strings

  /** `hparams.sample_rate`: a positive number of samples per second. */
  type Rate = n: nat | n > 0 witness 1

  /** The options of `hparams` the preprocessing core reads. Durations are in
      seconds. */
  datatype Config = Config(
    sampleRate: Rate,
    utteranceMinDuration: real,
    maxMelFrames: nat,
    clipMelsLength: bool,
    hopSize: nat,
    silenceMinDurationSplit: real)

  /** `hop_size * max_mel_frames / sample_rate`: the longest duration, in
      seconds, the re-attachment step may build by joining segments. */
  function MaxJoinedDuration(c: Config): real {
    (c.hopSize * c.maxMelFrames) as real / c.sampleRate as real
  }

  /** One line of the ledger, in column order: the source audio path, the mel
      file name, the embedding file name, the waveform length in samples, the
      mel-frame count and the text. */
  datatype Record = Record(
    source: string,
    melName: string,
    embedName: string,
    samples: nat,
    melFrames: nat,
    text: string)

  function MelName(basename: string): string {
    "mel-" + basename + ".npy"
  }

  function EmbedName(basename: string): string {
    "embed-" + basename + ".npy"
  }

  /** `out_dir.joinpath("mels", "mel-<basename>.npy")` */
  function MelPath(outDir: string, basename: string): string {
    outDir + "/mels/" + MelName(basename)
  }

  /** Different base names give different mel and embedding file names. */
  lemma ArtifactNamesInjective(a: string, b: string)
    requires MelName(a) == MelName(b) || EmbedName(a) == EmbedName(b)
    ensures a == b
  {
    if MelName(a) == MelName(b) {
      AffixInjective("mel-", ".npy", a, b);
    } else {
      AffixInjective("embed-", ".npy", a, b);
    }
  }

  lemma AffixInjective(pre: string, suf: string, a: string, b: string)
    requires pre + a + suf == pre + b + suf
    ensures a == b
  {
    var s := pre + a + suf;
    assert a == s[|pre|..|pre| + |a|];
    assert b == s[|pre|..|pre| + |b|];
  }

  /** `len(wav) < utterance_min_duration * sample_rate` */
  predicate TooShort(samples: nat, c: Config) {
    (samples as real) < c.utteranceMinDuration * (c.sampleRate as real)
  }

  /** `mel_frames > max_mel_frames and clip_mels_length` */
  predicate TooLong(melFrames: nat, c: Config) {
    melFrames > c.maxMelFrames && c.clipMelsLength
  }

  /** What one call of `process_utterance` leaves behind: the record it returns
      (`None` when it skips or discards the utterance) and the files it wrote. */
  datatype Outcome = Outcome(record: Option<Record>, written: seq<string>)

  /** Nothing returned and nothing written. */
  const Nothing := Outcome(None, [])

  /** `process_utterance`: `source` is the audio path, `samples` the length of
      the waveform loaded from it, `melFrames` the frame count of its mel
      spectrogram, and `existing` the files already on disk. */
  function ProcessUtterance(source: string, samples: nat, melFrames: nat, text: string,
                            outDir: string, basename: string, skipExisting: bool,
                            existing: set<string>, c: Config): (o: Outcome)
    ensures o.record.None? <==>
              || (skipExisting && MelPath(outDir, basename) in existing)
              || TooShort(samples, c)
              || TooLong(melFrames, c)
    ensures o.record.None? <==> o.written == []
    ensures o.record.Some? ==>
              && o.written == [MelPath(outDir, basename)]
              && o.record.value.melName == MelName(basename)
              && o.record.value.embedName == EmbedName(basename)
              && o.record.value.samples == samples
              && o.record.value.melFrames == melFrames
              && o.record.value.text == text
              && |o.record.value.source| == |source|
              && (forall k :: 0 <= k < |source| ==>
                    o.record.value.source[k] == if source[k] == '\\' then '/' else source[k])
  {
    var melPath := MelPath(outDir, basename);
    if skipExisting && melPath in existing then Nothing
    else if TooShort(samples, c) then Nothing
    else if TooLong(melFrames, c) then Nothing
    else
      var r := Record(ReplaceChar(source, '\\', '/'), MelName(basename), EmbedName(basename),
                      samples, melFrames, text);
      Outcome(Some(r), [melPath])
  }

  /** Running `process_utterance` a second time with skip-existing set, once
      the files of the first run are on disk, returns nothing and writes
      nothing, whatever the first run did. */
  lemma ProcessUtteranceIdempotent(source: string, samples: nat, melFrames: nat, text: string,
                                   outDir: string, basename: string, skipExisting: bool,
                                   existing: set<string>, after: set<string>, c: Config)
    requires existing <= after
    requires forall f ::
               f in ProcessUtterance(source, samples, melFrames, text, outDir, basename,
                                     skipExisting, existing, c).written
               ==> f in after
    ensures ProcessUtterance(source, samples, melFrames, text, outDir, basename, true, after, c) == Nothing
  {
    var first := ProcessUtterance(source, samples, melFrames, text, outDir, basename, skipExisting, existing, c);
    if first.record.Some? {
      assert MelPath(outDir, basename) in first.written;
    }
  }

  /** `"%s_%02d" % (wav_fname, i)`: the base name of the `i`-th sub-utterance of
      a recording in the segment-annotated layout. */
  function SubBasename(name: string, i: nat): string {
    name + "_" + Pad2(i)
  }

  /** Sub-utterance base names are unique: the pair (recording name, index)
      can be read back from the base name, because the index part holds no
      underscore. */
  lemma SubBasenameInjective(p: string, i: nat, q: string, j: nat)
    requires SubBasename(p, i) == SubBasename(q, j)
    ensures p == q && i == j
  {
    var s := SubBasename(p, i);
    var di, dj := Pad2(i), Pad2(j);
    DigitSuffixLength(p, di, q, dj);
    assert di == s[|s| - |di|..] == dj;
    Pad2Injective(i, j);
    assert p == s[..|p|] == q;
  }

  lemma DigitSuffixLength(p: string, d: string, q: string, e: string)
    requires p + "_" + d == q + "_" + e
    requires forall k :: 0 <= k < |d| ==> IsDigit(d[k])
    requires forall k :: 0 <= k < |e| ==> IsDigit(e[k])
    ensures |d| == |e|
  {
    UnderscoreThenDigits(p, d);
    UnderscoreThenDigits(q, e);
  }

  lemma UnderscoreThenDigits(p: string, d: string)
    requires forall k :: 0 <= k < |d| ==> IsDigit(d[k])
    ensures (p + "_" + d)[|p|] == '_'
    ensures forall k :: |p| < k < |p| + 1 + |d| ==> IsDigit((p + "_" + d)[k])
  {
    var s := p + "_" + d;
    forall k | |p| < k < |p| + 1 + |d|
      ensures IsDigit(s[k])
    {
      assert s[k] == d[k - |p| - 1];
    }
  }

  /** `fname.replace('/', '-')`: the base name of an utterance in the
      transcript-file layout. */
  function UserBasename(fname: string): (b: string)
    ensures |b| == |fname|
    ensures '/' !in b
    ensures forall k :: 0 <= k < |fname| ==> b[k] == Dash(fname[k])
  {
    ReplaceChar(fname, '/', '-')
  }

  /** A character as the base name keeps it: `/` becomes `-`. */
  function Dash(ch: char): char {
    if ch == '/' then '-' else ch
  }

  /** Two transcript names give the same base name exactly when they agree
      everywhere once `/` is read as `-`. */
  lemma UserBasenameCollision(f: string, g: string)
    ensures UserBasename(f) == UserBasename(g) <==>
              |f| == |g| && forall k :: 0 <= k < |f| ==> Dash(f[k]) == Dash(g[k])
  {
    if |f| == |g| && forall k :: 0 <= k < |f| ==> Dash(f[k]) == Dash(g[k]) {
      assert forall k :: 0 <= k < |f| ==> UserBasename(f)[k] == UserBasename(g)[k];
    }
  }

  /** `a/b` and `a-b` share their mel file name. */
  lemma UserBasenameCollides(f: string, g: string)
    requires f == "a/b" && g == "a-b"
    ensures f != g
    ensures MelName(UserBasename(f)) == MelName(UserBasename(g))
  {
    UserBasenameCollision(f, g);
    assert f[1] != g[1];
  }
}
