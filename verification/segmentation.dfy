/** The segmentation engine of `split_on_silences`: pause detection, the
    re-attachment of too-short segments, and the extraction of one waveform
    slice and one text per final segment. Times are in seconds; the waveform is
    any sequence of samples. The live entry point stops after joining the
    words into one text; the full algorithm after that early return is modelled
    as its own method. */
module Segmentation {
  import opened Wrappers
  import opened Strings
  import opened Utterance

  // ---------------------------------------------------------------------------
  // Live shortcut

  /** What `split_on_silences` returns: one waveform and one text per segment. */
  datatype Pieces<S> = Pieces(wavs: seq<seq<S>>, texts: seq<string>)

  /** The path `split_on_silences` takes today: the whole waveform is one
      segment and its text is `''.join(words)`. */
  function SplitOnSilencesLive<S>(wav: seq<S>, words: seq<string>): Pieces<S> {
    Pieces([wav], [Concat(words)])
  }

  // ---------------------------------------------------------------------------
  // Pause detection

  datatype SplitError =
    | LengthMismatch     // len(words) == len(end_times) == len(start_times) fails
    | EdgeWordNotPause   // words[0] == "" and words[-1] == "" fails

  /** `[0.0] + end_times[:-1]`: each word starts where the previous one ended. */
  function StartTimes(ends: seq<real>): (r: seq<real>)
    ensures |r| == if |ends| == 0 then 1 else |ends|
    ensures r[0] == 0.0
    ensures forall k :: 0 < k < |r| ==> r[k] == ends[k - 1]
  {
    [0.0] + (if |ends| == 0 then [] else ends[..|ends| - 1])
  }

  /** The inputs pass the two assertions of the full algorithm. */
  predicate WellFormed(words: seq<string>, ends: seq<real>) {
    && |words| == |ends| >= 1
    && words[0] == ""
    && words[|words| - 1] == ""
  }

  /** `mask[i]`: the first and last positions, and every empty word whose gap
      lasts at least `silence_min_duration_split`. */
  predicate IsBreak(words: seq<string>, ends: seq<real>, threshold: real, i: nat)
    requires |words| == |ends| >= 1 && i < |words|
  {
    || i == 0
    || i == |words| - 1
    || (words[i] == "" && ends[i] - StartTimes(ends)[i] >= threshold)
  }

  predicate StrictlyIncreasing(b: seq<nat>) {
    forall k, l :: 0 <= k < l < |b| ==> b[k] < b[l]
  }

  /** The break positions at or after `i`, in increasing order. */
  function BreaksFrom(words: seq<string>, ends: seq<real>, threshold: real, i: nat): (r: seq<nat>)
    requires |words| == |ends| >= 1 && i <= |words|
    ensures forall k :: 0 <= k < |r| ==> i <= r[k] < |words|
    ensures forall k :: 0 <= k < |r| ==> IsBreak(words, ends, threshold, r[k])
    ensures forall j :: i <= j < |words| && IsBreak(words, ends, threshold, j) ==> j in r
    ensures StrictlyIncreasing(r)
    decreases |words| - i
  {
    if i == |words| then []
    else
      var rest := BreaksFrom(words, ends, threshold, i + 1);
      if IsBreak(words, ends, threshold, i) then [i] + rest else rest
  }

  /** Pause detection: the two assertions, then `np.where(mask)[0]`. */
  function Breaks(words: seq<string>, ends: seq<real>, c: Config): (r: Result<seq<nat>, SplitError>)
    ensures r.Success? <==> WellFormed(words, ends)
    ensures !(|words| == |ends| >= 1) ==> r == Failure(LengthMismatch)
    ensures r.Success? ==>
              && |r.value| >= 1
              && r.value[0] == 0
              && r.value[|r.value| - 1] == |words| - 1
              && StrictlyIncreasing(r.value)
              && (forall j :: 0 <= j < |words| ==>
                    (j in r.value <==> IsBreak(words, ends, c.silenceMinDurationSplit, j)))
              && (forall k :: 0 <= k < |r.value| ==> words[r.value[k]] == "")
  {
    if !(|words| == |ends| == |StartTimes(ends)|) then Failure(LengthMismatch)
    else if !(words[0] == "" && words[|words| - 1] == "") then Failure(EdgeWordNotPause)
    else
      var b := BreaksFrom(words, ends, c.silenceMinDurationSplit, 0);
      assert 0 in b && |words| - 1 in b;
      Success(b)
  }

  // ---------------------------------------------------------------------------
  // Segments and their durations

  /** A stretch of the recording between two break positions: it runs from the
      end of the pause at `start` to the beginning of the pause at `end`. */
  datatype Segment = Segment(start: nat, end: nat)

  /** `list(zip(breaks[:-1], breaks[1:]))` */
  function InitialSegments(b: seq<nat>): (r: seq<Segment>)
    ensures |r| == if |b| == 0 then 0 else |b| - 1
    ensures forall k :: 0 <= k < |r| ==> r[k] == Segment(b[k], b[k + 1])
  {
    if |b| == 0 then [] else seq(|b| - 1, k requires 0 <= k < |b| - 1 => Segment(b[k], b[k + 1]))
  }

  predicate InRange(segs: seq<Segment>, n: nat) {
    forall k :: 0 <= k < |segs| ==> segs[k].start < n && segs[k].end < n
  }

  /** `start_times[end] - end_times[start]` for every segment. */
  function Durations(segs: seq<Segment>, ends: seq<real>): (r: seq<real>)
    requires |ends| >= 1 && InRange(segs, |ends|)
    ensures |r| == |segs|
    ensures forall k :: 0 <= k < |r| ==> r[k] == StartTimes(ends)[segs[k].end] - ends[segs[k].start]
  {
    seq(|segs|, k requires 0 <= k < |segs| => StartTimes(ends)[segs[k].end] - ends[segs[k].start])
  }

  function Sum(d: seq<real>): real {
    if |d| == 0 then 0.0 else d[0] + Sum(d[1..])
  }

  lemma {:induction false} SumAppend(a: seq<real>, b: seq<real>)
    ensures Sum(a + b) == Sum(a) + Sum(b)
  {
    if |a| == 0 {
      assert a + b == b;
    } else {
      assert (a + b)[1..] == a[1..] + b;
      SumAppend(a[1..], b);
    }
  }

  predicate NonNegative(d: seq<real>) {
    forall k :: 0 <= k < |d| ==> d[k] >= 0.0
  }

  predicate NonDecreasing(t: seq<real>) {
    forall k, l :: 0 <= k <= l < |t| ==> t[k] <= t[l]
  }

  // ---------------------------------------------------------------------------
  // Re-attachment

  /** A duration or `float("inf")`, the stand-in for a missing neighbour. */
  datatype Bound = Finite(value: real) | Infinite

  predicate AtMost(a: Bound, b: Bound) {
    b.Infinite? || (a.Finite? && a.value <= b.value)
  }

  /** Python's `min(a, b)`: `a` unless `b` is strictly smaller. */
  function Min(a: Bound, b: Bound): Bound {
    if AtMost(a, b) then a else b
  }

  function LeftOf(d: seq<real>, i: nat): Bound
    requires i < |d|
  {
    if i == 0 then Infinite else Finite(d[i - 1])
  }

  function RightOf(d: seq<real>, i: nat): Bound
    requires i < |d|
  {
    if i == |d| - 1 then Infinite else Finite(d[i + 1])
  }

  /** `segment_durations[i] + min(left_duration, right_duration)` */
  function Joined(d: seq<real>, i: nat): Bound
    requires i < |d|
  {
    match Min(LeftOf(d, i), RightOf(d, i))
    case Infinite => Infinite
    case Finite(m) => Finite(d[i] + m)
  }

  /** `joined_duration > hop_size * max_mel_frames / sample_rate` */
  predicate TooLongToJoin(d: seq<real>, i: nat, maxDur: real)
    requires i < |d|
  {
    Joined(d, i).Infinite? || Joined(d, i).value > maxDur
  }

  /** Segment `i` is one the loop leaves standing: it is long enough, or
      joining it with its shorter neighbour would exceed the cap. */
  predicate Settled(d: seq<real>, i: nat, minDur: real, maxDur: real)
    requires i < |d|
  {
    d[i] >= minDur || TooLongToJoin(d, i, maxDur)
  }

  /** `s[j] = x; del s[j + 1]` */
  function MergeAt<T>(s: seq<T>, j: nat, x: T): (r: seq<T>)
    requires j + 1 < |s|
    ensures |r| == |s| - 1
    ensures r[j] == x
    ensures forall k :: 0 <= k < j ==> r[k] == s[k]
    ensures forall k :: j < k < |r| ==> r[k] == s[k + 1]
  {
    s[..j] + [x] + s[j + 2..]
  }

  /** The merged segments keep a record of the initial segments they absorbed:
      final segment `k` is the run of initial segments `cuts[k] .. cuts[k+1]`,
      it spans from the first one's start to the last one's end, and its stored
      duration is the sum of theirs. */
  ghost predicate Covers(segs0: seq<Segment>, durs0: seq<real>, cuts: seq<nat>,
                         segs: seq<Segment>, durs: seq<real>)
    requires |segs0| == |durs0|
  {
    && |cuts| == |segs| + 1
    && |durs| == |segs|
    && cuts[0] == 0
    && cuts[|segs|] == |segs0|
    && (forall k, l :: 0 <= k < l < |cuts| ==> cuts[k] < cuts[l])
    && (forall k :: 0 <= k < |cuts| ==> cuts[k] <= |segs0|)
    && (forall k :: 0 <= k < |segs| ==>
          segs[k] == Segment(segs0[cuts[k]].start, segs0[cuts[k + 1] - 1].end))
    && (forall k :: 0 <= k < |segs| ==> durs[k] == Sum(durs0[cuts[k]..cuts[k + 1]]))
  }

  /** Every run of more than one initial segment is one the loop may build:
      it stays within the cap, and it absorbed some initial segment that was
      too short on its own. */
  ghost predicate Justified(durs0: seq<real>, cuts: seq<nat>, durs: seq<real>, minDur: real, maxDur: real) {
    forall k :: 0 <= k < |durs| && k + 1 < |cuts| && cuts[k] + 1 < cuts[k + 1] ==>
      durs[k] <= maxDur && HasShort(durs0, cuts[k], cuts[k + 1], minDur)
  }

  /** Some initial segment among `lo .. hi` is shorter than `minDur`. */
  ghost predicate HasShort(durs0: seq<real>, lo: nat, hi: nat, minDur: real) {
    exists m :: lo <= m < hi && m < |durs0| && durs0[m] < minDur
  }

  /** The final segments are the initial ones joined into runs, and only runs
      the loop may build. */
  ghost predicate Reattachment(segs0: seq<Segment>, durs0: seq<real>, minDur: real, maxDur: real,
                               segs: seq<Segment>, durs: seq<real>)
    requires |segs0| == |durs0|
  {
    exists cuts :: Covers(segs0, durs0, cuts, segs, durs) && Justified(durs0, cuts, durs, minDur, maxDur)
  }

  /** Runs of one initial segment each are the initial segments themselves. */
  lemma {:induction false} UnitCuts(cuts: seq<nat>, n: nat)
    requires |cuts| == n + 1 && cuts[0] == 0
    requires forall k :: 0 <= k < n ==> cuts[k] + 1 == cuts[k + 1]
    ensures forall k :: 0 <= k <= n ==> cuts[k] == k
  {
    if n > 0 {
      UnitCuts(cuts[..n], n - 1);
      assert cuts[n - 1] == cuts[..n][n - 1];
    }
  }

  /** A segment long enough on its own is never joined: when no initial
      segment is too short, re-attachment leaves them all as they are. */
  lemma NothingShortNothingJoined(segs0: seq<Segment>, durs0: seq<real>, minDur: real, maxDur: real,
                                  segs: seq<Segment>, durs: seq<real>)
    requires |segs0| == |durs0|
    requires forall m :: 0 <= m < |durs0| ==> durs0[m] >= minDur
    ensures Reattachment(segs0, durs0, minDur, maxDur, segs, durs) ==> segs == segs0 && durs == durs0
  {
    if Reattachment(segs0, durs0, minDur, maxDur, segs, durs) {
      var cuts :| Covers(segs0, durs0, cuts, segs, durs) && Justified(durs0, cuts, durs, minDur, maxDur);
      forall k | 0 <= k < |segs|
        ensures cuts[k] + 1 == cuts[k + 1]
      {
        assert !HasShort(durs0, cuts[k], cuts[k + 1], minDur);
      }
      UnitCuts(cuts, |segs|);
      forall k | 0 <= k < |segs|
        ensures segs[k] == segs0[k] && durs[k] == durs0[k]
      {
        SingleRun(segs0, durs0, cuts, segs, durs, k);
      }
    }
  }

  /** The invariant of the re-attachment loop at cursor `i`: the segments are
      runs of the initial ones the loop may build, the total duration is
      conserved, and every segment left of the cursor is settled. */
  ghost predicate Progress(segs0: seq<Segment>, durs0: seq<real>, cuts: seq<nat>,
                           segs: seq<Segment>, durs: seq<real>, i: nat, minDur: real, maxDur: real)
    requires |segs0| == |durs0|
  {
    && |segs| == |durs| <= |segs0|
    && (|segs0| > 0 ==> |segs| > 0)
    && i <= |segs|
    && Covers(segs0, durs0, cuts, segs, durs)
    && Justified(durs0, cuts, durs, minDur, maxDur)
    && Sum(durs) == Sum(durs0)
    && (NonNegative(durs0) ==> NonNegative(durs))
    && (NonNegative(durs0) ==> forall k :: 0 <= k < i ==> Settled(durs, k, minDur, maxDur))
  }

  /** The re-attachment loop of `split_on_silences`. */
  method Reattach(segs0: seq<Segment>, durs0: seq<real>, minDur: real, maxDur: real)
    returns (segs: seq<Segment>, durs: seq<real>, ghost cuts: seq<nat>)
    requires |segs0| == |durs0|
    ensures |segs| == |durs| <= |segs0|
    ensures |segs0| > 0 ==> |segs| > 0
    ensures Covers(segs0, durs0, cuts, segs, durs)
    ensures Justified(durs0, cuts, durs, minDur, maxDur)
    ensures Sum(durs) == Sum(durs0)
    ensures NonNegative(durs0) ==>
              forall k :: 0 <= k < |durs| ==> Settled(durs, k, minDur, maxDur)
  {
    segs, durs := segs0, durs0;
    cuts := seq(|segs0| + 1, k requires 0 <= k <= |segs0| => k);
    InitialCovers(segs0, durs0, cuts);
    InitialJustified(durs0, cuts, minDur, maxDur);
    var i := 0;
    while i < |segs| && |segs| > 1
      invariant Progress(segs0, durs0, cuts, segs, durs, i, minDur, maxDur)
      decreases |segs| - i
    {
      if durs[i] < minDur {
        var left := LeftOf(durs, i);
        var right := RightOf(durs, i);
        var joined := Joined(durs, i);
        if TooLongToJoin(durs, i, maxDur) {
          Advance(segs0, durs0, cuts, segs, durs, i, minDur, maxDur);
          i := i + 1;
        } else {
          var j := if AtMost(left, right) then i - 1 else i;
          assert joined.value == durs[j] + durs[j + 1];
          segs, durs, cuts := Merge(segs0, durs0, cuts, segs, durs, i, j, minDur, maxDur);
        }
      } else {
        Advance(segs0, durs0, cuts, segs, durs, i, minDur, maxDur);
        i := i + 1;
      }
    }
    LoopExit(segs0, durs0, cuts, segs, durs, i, minDur, maxDur);
  }

  /** Moving the cursor past a settled segment keeps the invariant. */
  lemma Advance(segs0: seq<Segment>, durs0: seq<real>, cuts: seq<nat>,
                segs: seq<Segment>, durs: seq<real>, i: nat, minDur: real, maxDur: real)
    requires |segs0| == |durs0|
    requires Progress(segs0, durs0, cuts, segs, durs, i, minDur, maxDur)
    requires i < |durs| && Settled(durs, i, minDur, maxDur)
    ensures Progress(segs0, durs0, cuts, segs, durs, i + 1, minDur, maxDur)
  {
  }

  /** When the loop stops, every segment is settled: the cursor passed them
      all, or a single segment is left, which has no neighbour to join. */
  lemma LoopExit(segs0: seq<Segment>, durs0: seq<real>, cuts: seq<nat>,
                 segs: seq<Segment>, durs: seq<real>, i: nat, minDur: real, maxDur: real)
    requires |segs0| == |durs0|
    requires Progress(segs0, durs0, cuts, segs, durs, i, minDur, maxDur)
    requires !(i < |segs| && |segs| > 1)
    ensures |segs| == |durs| <= |segs0|
    ensures |segs0| > 0 ==> |segs| > 0
    ensures Covers(segs0, durs0, cuts, segs, durs)
    ensures Justified(durs0, cuts, durs, minDur, maxDur)
    ensures Sum(durs) == Sum(durs0)
    ensures NonNegative(durs0) ==>
              forall k :: 0 <= k < |durs| ==> Settled(durs, k, minDur, maxDur)
  {
    if NonNegative(durs0) && |segs| == 1 {
      assert TooLongToJoin(durs, 0, maxDur);
    }
  }

  /** `segment_durations[j] = joined_duration; del segment_durations[j + 1]`,
      and the same for the segments: joining a too-short segment with a
      neighbour within the cap keeps the invariant of the re-attachment loop
      at the same cursor. */
  method Merge(segs0: seq<Segment>, durs0: seq<real>, ghost cuts: seq<nat>,
               segs: seq<Segment>, durs: seq<real>, i: nat, j: nat, minDur: real, maxDur: real)
    returns (segs': seq<Segment>, durs': seq<real>, ghost cuts': seq<nat>)
    requires |segs0| == |durs0|
    requires Progress(segs0, durs0, cuts, segs, durs, i, minDur, maxDur)
    requires i < |durs| && (j == i || j + 1 == i) && j + 1 < |durs|
    requires durs[i] < minDur
    requires durs[j] + durs[j + 1] <= maxDur
    ensures |segs'| == |durs'| == |segs| - 1
    ensures segs' == MergeAt(segs, j, Segment(segs[j].start, segs[j + 1].end))
    ensures durs' == MergeAt(durs, j, durs[j] + durs[j + 1])
    ensures cuts' == cuts[..j + 1] + cuts[j + 2..]
    ensures Progress(segs0, durs0, cuts', segs', durs', i, minDur, maxDur)
  {
    segs' := MergeAt(segs, j, Segment(segs[j].start, segs[j + 1].end));
    durs' := MergeAt(durs, j, durs[j] + durs[j + 1]);
    cuts' := cuts[..j + 1] + cuts[j + 2..];
    if NonNegative(durs0) {
      SettledAfterMerge(durs, durs', i, j, minDur, maxDur);
    }
    MergeCovers(segs0, durs0, cuts, segs, durs, j);
    JustifiedAfterMerge(segs0, durs0, cuts, segs, durs, i, j, minDur, maxDur);
    SumMerge(durs, j);
  }

  /** Before any merge, no run holds more than one initial segment. */
  lemma InitialJustified(durs0: seq<real>, cuts: seq<nat>, minDur: real, maxDur: real)
    requires cuts == seq(|durs0| + 1, k requires 0 <= k <= |durs0| => k)
    ensures Justified(durs0, cuts, durs0, minDur, maxDur)
  {
    forall k | 0 <= k < |durs0| && k + 1 < |cuts|
      ensures cuts[k] + 1 == cuts[k + 1]
    {
    }
  }

  /** A run of one initial segment has that segment's duration. */
  lemma SingleRun(segs0: seq<Segment>, durs0: seq<real>, cuts: seq<nat>,
                  segs: seq<Segment>, durs: seq<real>, k: nat)
    requires |segs0| == |durs0|
    requires Covers(segs0, durs0, cuts, segs, durs)
    requires k < |durs| && cuts[k] + 1 == cuts[k + 1]
    ensures cuts[k] < |durs0| && durs[k] == durs0[cuts[k]]
  {
    var x := durs0[cuts[k]];
    assert durs0[cuts[k]..cuts[k + 1]] == [x];
    assert [x][1..] == [];
    assert Sum([x]) == x + Sum([]);
  }

  /** Joining two runs within the cap, one of which is too short, builds a
      run the loop may build: the too-short run is a single initial segment
      or, being joined already, holds a too-short initial segment. */
  lemma JustifiedAfterMerge(segs0: seq<Segment>, durs0: seq<real>, cuts: seq<nat>,
                            segs: seq<Segment>, durs: seq<real>, i: nat, j: nat, minDur: real, maxDur: real)
    requires |segs0| == |durs0|
    requires Covers(segs0, durs0, cuts, segs, durs)
    requires Justified(durs0, cuts, durs, minDur, maxDur)
    requires i < |durs| && (j == i || j + 1 == i) && j + 1 < |durs|
    requires durs[i] < minDur
    requires durs[j] + durs[j + 1] <= maxDur
    ensures Justified(durs0, cuts[..j + 1] + cuts[j + 2..],
                      MergeAt(durs, j, durs[j] + durs[j + 1]), minDur, maxDur)
  {
    var cuts' := cuts[..j + 1] + cuts[j + 2..];
    var durs' := MergeAt(durs, j, durs[j] + durs[j + 1]);
    CutsAfterMerge(cuts, j, |segs0|);
    if cuts[i] + 1 == cuts[i + 1] {
      SingleRun(segs0, durs0, cuts, segs, durs, i);
      assert cuts[i] <= cuts[i] < cuts[i + 1] && durs0[cuts[i]] < minDur;
    }
    var m: nat :| cuts[i] <= m < cuts[i + 1] && m < |durs0| && durs0[m] < minDur;
    forall k | 0 <= k < |durs'| && k + 1 < |cuts'| && cuts'[k] + 1 < cuts'[k + 1]
      ensures durs'[k] <= maxDur
      ensures HasShort(durs0, cuts'[k], cuts'[k + 1], minDur)
    {
      if k < j {
        assert durs'[k] == durs[k] && cuts'[k] == cuts[k] && cuts'[k + 1] == cuts[k + 1];
      } else if k == j {
        assert cuts'[j] == cuts[j] && cuts'[j + 1] == cuts[j + 2];
        assert cuts[j] < cuts[j + 1] < cuts[j + 2];
        assert cuts'[k] <= m < cuts'[k + 1];
      } else {
        assert durs'[k] == durs[k + 1] && cuts'[k] == cuts[k + 1] && cuts'[k + 1] == cuts[k + 2];
      }
    }
  }

  /** Before any merge, every segment is its own run. */
  lemma InitialCovers(segs0: seq<Segment>, durs0: seq<real>, cuts: seq<nat>)
    requires |segs0| == |durs0|
    requires cuts == seq(|segs0| + 1, k requires 0 <= k <= |segs0| => k)
    ensures Covers(segs0, durs0, cuts, segs0, durs0)
  {
    forall k | 0 <= k < |segs0|
      ensures segs0[k] == Segment(segs0[cuts[k]].start, segs0[cuts[k + 1] - 1].end)
      ensures durs0[k] == Sum(durs0[cuts[k]..cuts[k + 1]])
    {
      assert cuts[k] == k && cuts[k + 1] == k + 1;
      assert durs0[k..k + 1] == [durs0[k]];
    }
  }

  lemma SumMerge(d: seq<real>, j: nat)
    requires j + 1 < |d|
    ensures Sum(MergeAt(d, j, d[j] + d[j + 1])) == Sum(d)
  {
    assert d == d[..j] + ([d[j], d[j + 1]] + d[j + 2..]);
    SumAppend(d[..j], [d[j], d[j + 1]] + d[j + 2..]);
    SumAppend([d[j], d[j + 1]], d[j + 2..]);
    var m := MergeAt(d, j, d[j] + d[j + 1]);
    assert m == d[..j] + ([d[j] + d[j + 1]] + d[j + 2..]);
    SumAppend(d[..j], [d[j] + d[j + 1]] + d[j + 2..]);
    SumAppend([d[j] + d[j + 1]], d[j + 2..]);
  }

  lemma MergeCovers(segs0: seq<Segment>, durs0: seq<real>, cuts: seq<nat>,
                    segs: seq<Segment>, durs: seq<real>, j: nat)
    requires |segs0| == |durs0|
    requires Covers(segs0, durs0, cuts, segs, durs)
    requires j + 1 < |segs|
    ensures Covers(segs0, durs0, cuts[..j + 1] + cuts[j + 2..],
                   MergeAt(segs, j, Segment(segs[j].start, segs[j + 1].end)),
                   MergeAt(durs, j, durs[j] + durs[j + 1]))
  {
    var cuts' := cuts[..j + 1] + cuts[j + 2..];
    var segs' := MergeAt(segs, j, Segment(segs[j].start, segs[j + 1].end));
    var durs' := MergeAt(durs, j, durs[j] + durs[j + 1]);
    CutsAfterMerge(cuts, j, |segs0|);
    RunsAfterMerge(segs0, durs0, cuts, segs, durs, j);
  }

  lemma RunsAfterMerge(segs0: seq<Segment>, durs0: seq<real>, cuts: seq<nat>,
                       segs: seq<Segment>, durs: seq<real>, j: nat)
    requires |segs0| == |durs0|
    requires Covers(segs0, durs0, cuts, segs, durs)
    requires j + 1 < |segs|
    ensures var cuts' := cuts[..j + 1] + cuts[j + 2..];
            var segs' := MergeAt(segs, j, Segment(segs[j].start, segs[j + 1].end));
            var durs' := MergeAt(durs, j, durs[j] + durs[j + 1]);
            forall k :: 0 <= k < |segs'| ==>
              && segs'[k] == Segment(segs0[cuts'[k]].start, segs0[cuts'[k + 1] - 1].end)
              && durs'[k] == Sum(durs0[cuts'[k]..cuts'[k + 1]])
  {
    var cuts' := cuts[..j + 1] + cuts[j + 2..];
    var segs' := MergeAt(segs, j, Segment(segs[j].start, segs[j + 1].end));
    var durs' := MergeAt(durs, j, durs[j] + durs[j + 1]);
    forall k | 0 <= k < |segs'|
      ensures segs'[k] == Segment(segs0[cuts'[k]].start, segs0[cuts'[k + 1] - 1].end)
      ensures durs'[k] == Sum(durs0[cuts'[k]..cuts'[k + 1]])
    {
      if k < j {
        assert segs'[k] == segs[k] && durs'[k] == durs[k];
        assert cuts'[k] == cuts[k] && cuts'[k + 1] == cuts[k + 1];
      } else if k == j {
        MergedRun(segs0, durs0, cuts, segs, durs, j);
      } else {
        assert segs'[k] == segs[k + 1] && durs'[k] == durs[k + 1];
        assert cuts'[k] == cuts[k + 1] && cuts'[k + 1] == cuts[k + 2];
      }
    }
  }

  /** Dropping the cut between two runs keeps the cuts increasing and in
      range. */
  lemma CutsAfterMerge(cuts: seq<nat>, j: nat, n: nat)
    requires j + 2 < |cuts|
    requires forall k, l :: 0 <= k < l < |cuts| ==> cuts[k] < cuts[l]
    requires forall k :: 0 <= k < |cuts| ==> cuts[k] <= n
    ensures var cuts' := cuts[..j + 1] + cuts[j + 2..];
            && |cuts'| == |cuts| - 1
            && cuts'[0] == cuts[0]
            && cuts'[|cuts'| - 1] == cuts[|cuts| - 1]
            && (forall k :: 0 <= k <= j ==> cuts'[k] == cuts[k])
            && (forall k :: j < k < |cuts'| ==> cuts'[k] == cuts[k + 1])
            && (forall k, l :: 0 <= k < l < |cuts'| ==> cuts'[k] < cuts'[l])
            && (forall k :: 0 <= k < |cuts'| ==> cuts'[k] <= n)
  {
    var cuts' := cuts[..j + 1] + cuts[j + 2..];
    forall k, l | 0 <= k < l < |cuts'|
      ensures cuts'[k] < cuts'[l]
    {
      var k', l' := if k <= j then k else k + 1, if l <= j then l else l + 1;
      assert cuts'[k] == cuts[k'] && cuts'[l] == cuts[l'];
    }
  }

  /** The merged segment spans both runs and its duration is their sum. */
  lemma MergedRun(segs0: seq<Segment>, durs0: seq<real>, cuts: seq<nat>,
                  segs: seq<Segment>, durs: seq<real>, j: nat)
    requires |segs0| == |durs0|
    requires Covers(segs0, durs0, cuts, segs, durs)
    requires j + 1 < |segs|
    ensures Segment(segs[j].start, segs[j + 1].end) == Segment(segs0[cuts[j]].start, segs0[cuts[j + 2] - 1].end)
    ensures durs[j] + durs[j + 1] == Sum(durs0[cuts[j]..cuts[j + 2]])
  {
    var a, m, b := cuts[j], cuts[j + 1], cuts[j + 2];
    assert a < m < b <= |segs0|;
    assert durs0[a..b] == durs0[a..m] + durs0[m..b];
    SumAppend(durs0[a..m], durs0[m..b]);
  }

  lemma MinWithFinite(a: Bound, x: real)
    ensures Min(a, Finite(x)).Finite?
    ensures Min(a, Finite(x)).value <= x
  {
  }

  /** A neighbour that only grew leaves a settled segment settled. */
  lemma SettledMonotone(d: seq<real>, d': seq<real>, k: nat, minDur: real, maxDur: real)
    requires k < |d| && k < |d'|
    requires d'[k] == d[k]
    requires LeftOf(d', k) == LeftOf(d, k)
    requires AtMost(RightOf(d, k), RightOf(d', k))
    requires Settled(d, k, minDur, maxDur)
    ensures Settled(d', k, minDur, maxDur)
  {
  }

  /** A merge at the cursor, or just left of it, keeps every segment left of
      the cursor settled. Merging into a left neighbour the loop already left
      standing because joining was too long cannot happen: it would be
      joining the same two segments again. */
  lemma SettledAfterMerge(d: seq<real>, d': seq<real>, i: nat, j: nat, minDur: real, maxDur: real)
    requires NonNegative(d)
    requires i < |d| && (j == i || j + 1 == i) && j + 1 < |d|
    requires d[j] + d[j + 1] <= maxDur
    requires d' == MergeAt(d, j, d[j] + d[j + 1])
    requires forall k :: 0 <= k < i ==> Settled(d, k, minDur, maxDur)
    ensures NonNegative(d')
    ensures forall k :: 0 <= k < i && k < |d'| ==> Settled(d', k, minDur, maxDur)
  {
    forall k | 0 <= k < i && k < |d'|
      ensures Settled(d', k, minDur, maxDur)
    {
      if k == j {
        // j == i - 1: a segment the loop left standing because it was too
        // long to join is never joined later, so this one was long enough
        assert Settled(d, j, minDur, maxDur);
        assert RightOf(d, j) == Finite(d[j + 1]);
        MinWithFinite(LeftOf(d, j), d[j + 1]);
      } else if k + 1 == j {
        SettledMonotone(d, d', k, minDur, maxDur);
      } else {
        assert k + 1 < j;
        SettledMonotone(d, d', k, minDur, maxDur);
      }
    }
  }

  // ---------------------------------------------------------------------------
  // The segmentation plan

  /** The segments that survive re-attachment, with their stored durations. */
  datatype Plan = Plan(segments: seq<Segment>, durations: seq<real>)

  /** The segments run back to back from the first word position to the last,
      each between two break positions, so they are ordered and do not
      overlap. */
  predicate Partition(words: seq<string>, ends: seq<real>, c: Config, segs: seq<Segment>) {
    && WellFormed(words, ends)
    && (|words| == 1 <==> |segs| == 0)
    && (|segs| > 0 ==> segs[0].start == 0 && segs[|segs| - 1].end == |words| - 1)
    && (forall k :: 0 <= k < |segs| - 1 ==> segs[k].end == segs[k + 1].start)
    && (forall k :: 0 <= k < |segs| ==> segs[k].start < segs[k].end < |words|)
    && (forall k :: 0 <= k < |segs| ==>
          && IsBreak(words, ends, c.silenceMinDurationSplit, segs[k].start)
          && IsBreak(words, ends, c.silenceMinDurationSplit, segs[k].end)
          && words[segs[k].start] == ""
          && words[segs[k].end] == "")
  }

  /** The plan joins the initial segments between the breaks into runs, and
      only into runs the re-attachment loop may build. */
  ghost predicate Reattached(words: seq<string>, ends: seq<real>, c: Config, plan: Plan) {
    && WellFormed(words, ends)
    && Reattachment(InitialSegments(Breaks(words, ends, c).value), InitialDurations(words, ends, c),
                    c.utteranceMinDuration, MaxJoinedDuration(c), plan.segments, plan.durations)
  }

  /** The durations of the segments between consecutive breaks. */
  function InitialDurations(words: seq<string>, ends: seq<real>, c: Config): (d: seq<real>)
    requires WellFormed(words, ends)
    ensures |d| == |InitialSegments(Breaks(words, ends, c).value)|
  {
    Durations(InitialSegments(Breaks(words, ends, c).value), ends)
  }

  /** What pause detection and re-attachment promise of their plan: the
      segments partition the words between breaks, they are a re-attachment
      of the initial segments, the total duration is conserved, and with
      non-decreasing end times every segment is settled. */
  ghost predicate Planned(words: seq<string>, ends: seq<real>, c: Config, plan: Plan) {
    && WellFormed(words, ends)
    && |plan.durations| == |plan.segments|
    && Partition(words, ends, c, plan.segments)
    && Reattached(words, ends, c, plan)
    && Sum(plan.durations) == Sum(InitialDurations(words, ends, c))
    && (NonDecreasing(ends) ==>
          forall k :: 0 <= k < |plan.durations| ==>
            Settled(plan.durations, k, c.utteranceMinDuration, MaxJoinedDuration(c)))
  }

  /** Pause detection and re-attachment: the part of `split_on_silences`
      between its assertions and the extraction of the pieces. */
  method PlanSegments(words: seq<string>, ends: seq<real>, c: Config) returns (r: Result<Plan, SplitError>)
    ensures r.Success? <==> WellFormed(words, ends)
    ensures r.Failure? ==> r.error == (if |words| == |ends| >= 1 then EdgeWordNotPause else LengthMismatch)
    ensures r.Success? ==> Planned(words, ends, c, r.value)
  {
    var breaks := Breaks(words, ends, c);
    if breaks.Failure? {
      return Failure(breaks.error);
    }
    var b := breaks.value;
    var segs0 := InitialSegments(b);
    var durs0 := Durations(segs0, ends);
    var segs, durs;
    ghost var cuts;
    segs, durs, cuts := Reattach(segs0, durs0, c.utteranceMinDuration, MaxJoinedDuration(c));
    PartitionFromCuts(words, ends, c, b, segs0, durs0, cuts, segs, durs);
    assert Reattached(words, ends, c, Plan(segs, durs)) by {
      assert Covers(segs0, durs0, cuts, segs, durs) && Justified(durs0, cuts, durs, c.utteranceMinDuration, MaxJoinedDuration(c));
    }
    if NonDecreasing(ends) {
      InitialDurationsNonNegative(words, ends, c, b);
    }
    return Success(Plan(segs, durs));
  }

  lemma PartitionFromCuts(words: seq<string>, ends: seq<real>, c: Config, b: seq<nat>,
                          segs0: seq<Segment>, durs0: seq<real>, cuts: seq<nat>,
                          segs: seq<Segment>, durs: seq<real>)
    requires Breaks(words, ends, c) == Success(b)
    requires segs0 == InitialSegments(b) && |durs0| == |segs0|
    requires Covers(segs0, durs0, cuts, segs, durs)
    requires |segs| <= |segs0| && (|segs0| > 0 ==> |segs| > 0)
    ensures Partition(words, ends, c, segs)
  {
    SegmentsAtCuts(b, segs0, durs0, cuts, segs, durs);
    PartitionOfBreaks(words, ends, c, b, cuts, segs);
  }

  /** Each surviving segment runs from one break to a later one. */
  lemma SegmentsAtCuts(b: seq<nat>, segs0: seq<Segment>, durs0: seq<real>, cuts: seq<nat>,
                       segs: seq<Segment>, durs: seq<real>)
    requires |b| >= 1 && segs0 == InitialSegments(b) && |durs0| == |segs0|
    requires Covers(segs0, durs0, cuts, segs, durs)
    ensures |cuts| == |segs| + 1 && cuts[0] == 0 && cuts[|segs|] == |b| - 1
    ensures forall k, l :: 0 <= k < l < |cuts| ==> cuts[k] < cuts[l]
    ensures forall k :: 0 <= k < |cuts| ==> cuts[k] < |b|
    ensures forall k :: 0 <= k < |segs| ==> segs[k] == Segment(b[cuts[k]], b[cuts[k + 1]])
  {
    forall k | 0 <= k < |segs|
      ensures segs[k] == Segment(b[cuts[k]], b[cuts[k + 1]])
    {
      assert segs0[cuts[k + 1] - 1].end == b[cuts[k + 1]];
    }
  }

  lemma PartitionOfBreaks(words: seq<string>, ends: seq<real>, c: Config, b: seq<nat>,
                          cuts: seq<nat>, segs: seq<Segment>)
    requires Breaks(words, ends, c) == Success(b)
    requires |cuts| == |segs| + 1 && cuts[0] == 0 && cuts[|segs|] == |b| - 1
    requires forall k, l :: 0 <= k < l < |cuts| ==> cuts[k] < cuts[l]
    requires forall k :: 0 <= k < |cuts| ==> cuts[k] < |b|
    requires forall k :: 0 <= k < |segs| ==> segs[k] == Segment(b[cuts[k]], b[cuts[k + 1]])
    ensures Partition(words, ends, c, segs)
  {
    BoundariesAreBreaks(words, ends, c, b, cuts, segs);
    SegmentsBackToBack(b, cuts, segs);
    SegmentsSpan(words, ends, c, b, cuts, segs);
  }

  /** The segments start at the first word position and end at the last, and
      there are none exactly when the recording is a single pause token. */
  lemma SegmentsSpan(words: seq<string>, ends: seq<real>, c: Config, b: seq<nat>,
                     cuts: seq<nat>, segs: seq<Segment>)
    requires Breaks(words, ends, c) == Success(b)
    requires |cuts| == |segs| + 1 && cuts[0] == 0 && cuts[|segs|] == |b| - 1
    requires forall k, l :: 0 <= k < l < |cuts| ==> cuts[k] < cuts[l]
    requires forall k :: 0 <= k < |cuts| ==> cuts[k] < |b|
    requires forall k :: 0 <= k < |segs| ==> segs[k] == Segment(b[cuts[k]], b[cuts[k + 1]])
    ensures WellFormed(words, ends)
    ensures |words| == 1 <==> |segs| == 0
    ensures |segs| > 0 ==> segs[0].start == 0 && segs[|segs| - 1].end == |words| - 1
  {
    if |b| > 1 {
      assert b[0] < b[1];
    }
    if |segs| > 0 {
      assert segs[0] == Segment(b[cuts[0]], b[cuts[1]]);
      assert segs[|segs| - 1] == Segment(b[cuts[|segs| - 1]], b[cuts[|segs|]]);
    }
  }

  /** Every segment opens and closes on a break, which is an empty word. */
  lemma BoundariesAreBreaks(words: seq<string>, ends: seq<real>, c: Config, b: seq<nat>,
                            cuts: seq<nat>, segs: seq<Segment>)
    requires Breaks(words, ends, c) == Success(b)
    requires |cuts| == |segs| + 1 && cuts[|segs|] == |b| - 1
    requires forall k, l :: 0 <= k < l < |cuts| ==> cuts[k] < cuts[l]
    requires forall k :: 0 <= k < |cuts| ==> cuts[k] < |b|
    requires forall k :: 0 <= k < |segs| ==> segs[k] == Segment(b[cuts[k]], b[cuts[k + 1]])
    ensures forall k :: 0 <= k < |segs| ==>
              && segs[k].start < segs[k].end < |words|
              && IsBreak(words, ends, c.silenceMinDurationSplit, segs[k].start)
              && IsBreak(words, ends, c.silenceMinDurationSplit, segs[k].end)
              && words[segs[k].start] == ""
              && words[segs[k].end] == ""
  {
    var th, last := c.silenceMinDurationSplit, |b| - 1;
    forall k | 0 <= k < |segs|
      ensures segs[k].start < segs[k].end < |words|
      ensures IsBreak(words, ends, th, segs[k].start) && IsBreak(words, ends, th, segs[k].end)
      ensures words[segs[k].start] == "" && words[segs[k].end] == ""
    {
      var i, j := cuts[k], cuts[k + 1];
      assert i < j <= last;
      assert b[j] <= b[last] by {
        if j < last {
          assert b[j] < b[last];
        }
      }
      assert b[i] in b && b[j] in b;
    }
  }

  lemma SegmentsBackToBack(b: seq<nat>, cuts: seq<nat>, segs: seq<Segment>)
    requires |cuts| == |segs| + 1
    requires forall k :: 0 <= k < |cuts| ==> cuts[k] < |b|
    requires forall k :: 0 <= k < |segs| ==> segs[k] == Segment(b[cuts[k]], b[cuts[k + 1]])
    ensures forall k :: 0 <= k < |segs| - 1 ==> segs[k].end == segs[k + 1].start
  {
    forall k | 0 <= k < |segs| - 1
      ensures segs[k].end == segs[k + 1].start
    {
      assert segs[k].end == b[cuts[k + 1]];
      assert segs[k + 1] == Segment(b[cuts[k + 1]], b[cuts[k + 2]]);
    }
  }

  lemma InitialDurationsNonNegative(words: seq<string>, ends: seq<real>, c: Config, b: seq<nat>)
    requires Breaks(words, ends, c) == Success(b)
    requires NonDecreasing(ends)
    ensures NonNegative(Durations(InitialSegments(b), ends))
  {
    var segs0 := InitialSegments(b);
    forall k | 0 <= k < |segs0|
      ensures StartTimes(ends)[b[k + 1]] - ends[b[k]] >= 0.0
    {
      assert b[k] <= b[k + 1] - 1;
    }
  }

  // ---------------------------------------------------------------------------
  // Extraction of the pieces

  /** `int(x)` as numpy's `astype` computes it: truncation toward zero. */
  function Truncate(x: real): int {
    if x >= 0.0 then x.Floor else -((-x).Floor)
  }

  /** A Python slice bound: negative counts from the end, then clamp. */
  function SliceBound(x: int, n: nat): (r: nat)
    ensures r <= n
  {
    if x < 0 then (if x + n < 0 then 0 else x + n) else if x > n then n else x
  }

  /** Python's `s[a:b]`. */
  function PySlice<S>(s: seq<S>, a: int, b: int): seq<S> {
    var lo, hi := SliceBound(a, |s|), SliceBound(b, |s|);
    if lo < hi then s[lo..hi] else []
  }

  /** The segment's sample range: from the end of its opening pause to the
      start of its closing pause, each time multiplied by the sample rate and
      truncated. */
  function SampleSpan(s: Segment, ends: seq<real>, rate: Rate): (int, int)
    requires s.start < |ends| && s.end < |ends|
  {
    (Truncate(ends[s.start] * rate as real), Truncate(StartTimes(ends)[s.end] * rate as real))
  }

  lemma PySliceInRange<S>(s: seq<S>, a: nat, b: nat)
    requires a <= b <= |s|
    ensures PySlice(s, a, b) == s[a..b]
  {
  }

  /** `" ".join(words[start + 1:end]).replace("  ", " ")` */
  function Text(words: seq<string>, s: Segment): string {
    CollapseDoubleSpaces(Join(" ", PySlice(words, s.start + 1, s.end)))
  }

  function Texts(words: seq<string>, segs: seq<Segment>): (r: seq<string>)
    ensures |r| == |segs|
  {
    if |segs| == 0 then [] else [Text(words, segs[0])] + Texts(words, segs[1..])
  }

  function Wavs<S>(wav: seq<S>, ends: seq<real>, rate: Rate, segs: seq<Segment>): (r: seq<seq<S>>)
    requires InRange(segs, |ends|)
    ensures |r| == |segs|
  {
    if |segs| == 0 then []
    else
      var span := SampleSpan(segs[0], ends, rate);
      [PySlice(wav, span.0, span.1)] + Wavs(wav, ends, rate, segs[1..])
  }

  /** The last three lines of `split_on_silences`. */
  function Extract<S>(wav: seq<S>, words: seq<string>, ends: seq<real>, rate: Rate,
                      segs: seq<Segment>): (r: Pieces<S>)
    requires InRange(segs, |ends|)
    ensures |r.wavs| == |r.texts| == |segs|
  {
    Pieces(Wavs(wav, ends, rate, segs), Texts(words, segs))
  }

  function DropSpaces(ts: seq<string>): (r: seq<string>)
    ensures |r| == |ts|
  {
    if |ts| == 0 then [] else [Drop(ts[0], ' ')] + DropSpaces(ts[1..])
  }

  /** The full segmentation algorithm of `split_on_silences` (the code after its
      early return), without the denoising step. */
  method SplitOnSilences<S>(wav: seq<S>, words: seq<string>, ends: seq<real>, c: Config)
    returns (r: Result<Pieces<S>, SplitError>, plan: Plan)
    ensures r.Success? <==> WellFormed(words, ends)
    ensures r.Failure? ==> r.error == (if |words| == |ends| >= 1 then EdgeWordNotPause else LengthMismatch)
    ensures r.Success? ==> Planned(words, ends, c, plan)
    ensures r.Success? ==> r.value == Extract(wav, words, ends, c.sampleRate, plan.segments)
    ensures r.Success? ==> (|r.value.texts| == 0 <==> |words| == 1)
    ensures r.Success? ==> Concat(DropSpaces(r.value.texts)) == Drop(Concat(words), ' ')
  {
    var planned := PlanSegments(words, ends, c);
    if planned.Failure? {
      return Failure(planned.error), Plan([], []);
    }
    plan := planned.value;
    var pieces := Extract(wav, words, ends, c.sampleRate, plan.segments);
    assert Concat(DropSpaces(pieces.texts)) == Drop(Concat(words), ' ') by {
      TextsCoverWords(words, ends, c, plan.segments);
    }
    r := Success(pieces);
  }

  lemma {:induction false} DropJoin(ws: seq<string>)
    ensures Drop(Join(" ", ws), ' ') == Drop(Concat(ws), ' ')
  {
    if |ws| == 0 {
    } else if |ws| == 1 {
      assert Concat(ws[1..]) == "";
      assert Concat(ws) == ws[0];
    } else {
      var w, rest := ws[0], ws[1..];
      var j, t := Join(" ", rest), Concat(rest);
      DropJoin(rest);
      assert Join(" ", ws) == (w + " ") + j;
      assert Concat(ws) == w + t;
      DropAppend(w + " ", j, ' ');
      DropAppend(w, " ", ' ');
      DropAppend(w, t, ' ');
      assert Drop(" ", ' ') == "";
    }
  }

  lemma ConcatAroundEmpty(ws: seq<string>, i: nat, m: nat, j: nat)
    requires i <= m < j <= |ws| && ws[m] == ""
    ensures Concat(ws[i..j]) == Concat(ws[i..m]) + Concat(ws[m + 1..j])
  {
    assert ws[i..j] == ws[i..m] + ([ws[m]] + ws[m + 1..j]);
    ConcatAppend(ws[i..m], [ws[m]] + ws[m + 1..j]);
    ConcatAppend([ws[m]], ws[m + 1..j]);
    assert Concat([ws[m]]) == "" + Concat([]);
  }

  lemma ConcatDropSpacesCons(t: string, ts: seq<string>)
    ensures Concat(DropSpaces([t] + ts)) == Drop(t, ' ') + Concat(DropSpaces(ts))
  {
    assert ([t] + ts)[1..] == ts;
  }

  lemma TextDropped(words: seq<string>, s: Segment)
    requires s.start < s.end <= |words|
    ensures Drop(Text(words, s), ' ') == Drop(Concat(words[s.start + 1..s.end]), ' ')
  {
    var ws := words[s.start + 1..s.end];
    PySliceInRange(words, s.start + 1, s.end);
    DropJoin(ws);
  }

  /** Back-to-back segments inside the word list whose closing boundary words
      are empty. */
  ghost predicate Chain(words: seq<string>, segs: seq<Segment>)
    decreases |segs|
  {
    && |segs| > 0
    && segs[0].start < segs[0].end < |words|
    && words[segs[0].end] == ""
    && (|segs| > 1 ==> segs[0].end == segs[1].start && Chain(words, segs[1..]))
  }

  /** Each of `ts`, spaces aside, holds exactly the words strictly inside its
      segment. */
  ghost predicate Dropped(words: seq<string>, segs: seq<Segment>, ts: seq<string>)
    decreases |segs|
  {
    && |ts| == |segs|
    && (|segs| > 0 ==>
          && segs[0].start < segs[0].end <= |words|
          && Drop(ts[0], ' ') == Drop(Concat(words[segs[0].start + 1..segs[0].end]), ' ')
          && Dropped(words, segs[1..], ts[1..]))
  }

  function Last(segs: seq<Segment>): Segment
    requires |segs| > 0
  {
    segs[|segs| - 1]
  }

  lemma {:induction false} ChainOrdered(words: seq<string>, segs: seq<Segment>)
    requires Chain(words, segs)
    ensures segs[0].start < Last(segs).end < |words|
    decreases |segs|
  {
    if |segs| > 1 {
      ChainOrdered(words, segs[1..]);
    }
  }

  /** The texts of the segments of a chain are exactly what `Dropped` asks. */
  lemma {:induction false} DroppedTexts(words: seq<string>, segs: seq<Segment>)
    requires |segs| == 0 || Chain(words, segs)
    ensures Dropped(words, segs, Texts(words, segs))
    decreases |segs|
  {
    if |segs| > 0 {
      var ts := Texts(words, segs);
      assert ts[0] == Text(words, segs[0]) && ts[1..] == Texts(words, segs[1..]);
      TextDropped(words, segs[0]);
      DroppedTexts(words, segs[1..]);
    }
  }

  /** The words strictly inside a chain of segments, spaces aside, are the
      words from the first boundary to the last, because every boundary word
      is an empty pause token. */
  lemma {:induction false} ChainTexts(words: seq<string>, segs: seq<Segment>, ts: seq<string>)
    requires Chain(words, segs) && Dropped(words, segs, ts)
    ensures segs[0].start < Last(segs).end < |words|
    ensures Concat(DropSpaces(ts)) == Drop(Concat(words[segs[0].start + 1..Last(segs).end]), ' ')
    decreases |segs|
  {
    if |segs| == 1 {
      ChainSingle(words, segs, ts);
    } else {
      ChainHead(words, segs, ts);
      ChainTexts(words, segs[1..], ts[1..]);
      ChainStep(words, ts, segs[0].start + 1, segs[0].end, Last(segs).end);
    }
  }

  lemma ChainHead(words: seq<string>, segs: seq<Segment>, ts: seq<string>)
    requires Chain(words, segs) && Dropped(words, segs, ts) && |segs| > 1
    ensures Chain(words, segs[1..]) && Dropped(words, segs[1..], ts[1..])
    ensures segs[0].start < segs[0].end == segs[1..][0].start && words[segs[0].end] == ""
    ensures Last(segs[1..]) == Last(segs)
    ensures |ts| > 0 && Drop(ts[0], ' ') == Drop(Concat(words[segs[0].start + 1..segs[0].end]), ' ')
  {
  }

  lemma ChainSingle(words: seq<string>, segs: seq<Segment>, ts: seq<string>)
    requires Chain(words, segs) && Dropped(words, segs, ts) && |segs| == 1
    ensures segs[0].start < Last(segs).end < |words|
    ensures Concat(DropSpaces(ts)) == Drop(Concat(words[segs[0].start + 1..Last(segs).end]), ' ')
  {
    ConcatDropSpacesCons(ts[0], []);
    assert ts == [ts[0]] + [];
  }

  /** The first segment's text joins the texts of the rest across the empty
      boundary word between them. */
  lemma ChainStep(words: seq<string>, ts: seq<string>, i: nat, m: nat, e: nat)
    requires |ts| > 0 && i <= m < e <= |words| && words[m] == ""
    requires Drop(ts[0], ' ') == Drop(Concat(words[i..m]), ' ')
    requires Concat(DropSpaces(ts[1..])) == Drop(Concat(words[m + 1..e]), ' ')
    ensures Concat(DropSpaces(ts)) == Drop(Concat(words[i..e]), ' ')
  {
    ConcatDropSpacesCons(ts[0], ts[1..]);
    assert ts == [ts[0]] + ts[1..];
    DropAroundEmpty(words, i, m, e);
  }

  lemma DropAroundEmpty(ws: seq<string>, i: nat, m: nat, j: nat)
    requires i <= m < j <= |ws| && ws[m] == ""
    ensures Drop(Concat(ws[i..j]), ' ') == Drop(Concat(ws[i..m]), ' ') + Drop(Concat(ws[m + 1..j]), ' ')
  {
    ConcatAroundEmpty(ws, i, m, j);
    DropAppend(Concat(ws[i..m]), Concat(ws[m + 1..j]), ' ');
  }

  /** The texts, spaces aside, spell out the words of the recording in order,
      each exactly once. */
  lemma TextsCoverWords(words: seq<string>, ends: seq<real>, c: Config, segs: seq<Segment>)
    requires Partition(words, ends, c, segs)
    ensures Concat(DropSpaces(Texts(words, segs))) == Drop(Concat(words), ' ')
  {
    if |segs| == 0 {
      assert Concat(words[1..]) == "";
      assert Concat(words) == "";
    } else {
      PartitionChain(words, ends, c, segs, 0);
      DroppedTexts(words, segs);
      ChainTexts(words, segs, Texts(words, segs));
      assert segs[0..] == segs;
      StripEdges(words);
    }
  }

  /** The live shortcut and the full algorithm tell the same words: spaces
      aside, the shortcut's one text is the concatenation of the texts of
      any partition the full algorithm cuts. */
  lemma LiveAgreesWithFull<S>(wav: seq<S>, words: seq<string>, ends: seq<real>, c: Config, segs: seq<Segment>)
    requires Partition(words, ends, c, segs)
    ensures Drop(Concat(SplitOnSilencesLive(wav, words).texts), ' ')
            == Concat(DropSpaces(Extract(wav, words, ends, c.sampleRate, segs).texts))
  {
    var t := Concat(words);
    assert [t][1..] == [] && Concat([t]) == t + Concat([]);
    assert Concat(SplitOnSilencesLive(wav, words).texts) == t;
    assert Extract(wav, words, ends, c.sampleRate, segs).texts == Texts(words, segs);
    TextsCoverWords(words, ends, c, segs);
  }

  /** Every suffix of the segments of a partition is a chain. */
  lemma {:induction false} PartitionChain(words: seq<string>, ends: seq<real>, c: Config, segs: seq<Segment>, i: nat)
    requires Partition(words, ends, c, segs) && i < |segs|
    ensures Chain(words, segs[i..])
    ensures segs[0].start == 0 && Last(segs).end == |words| - 1
    decreases |segs| - i
  {
    if i + 1 < |segs| {
      PartitionChain(words, ends, c, segs, i + 1);
      assert segs[i..][1..] == segs[i + 1..];
    }
  }

  lemma StripEdges(words: seq<string>)
    requires |words| >= 2 && words[0] == "" && words[|words| - 1] == ""
    ensures Concat(words[1..|words| - 1]) == Concat(words)
  {
    var n := |words|;
    assert words == [words[0]] + words[1..n - 1] + [words[n - 1]];
    ConcatAppend([words[0]] + words[1..n - 1], [words[n - 1]]);
    ConcatAppend([words[0]], words[1..n - 1]);
    assert Concat([words[0]]) == "" && Concat([words[n - 1]]) == "";
  }

  lemma TruncateMonotone(x: real, y: real)
    requires 0.0 <= x <= y
    ensures 0 <= Truncate(x) <= Truncate(y)
  {
  }

  lemma ScaleMonotone(x: real, y: real, rate: Rate)
    requires 0.0 <= x <= y
    ensures 0.0 <= x * rate as real <= y * rate as real
  {
  }

  lemma SpanWithin(s: Segment, ends: seq<real>, rate: Rate)
    requires s.start < s.end < |ends|
    requires NonDecreasing(ends) && ends[0] >= 0.0
    ensures 0 <= SampleSpan(s, ends, rate).0 <= SampleSpan(s, ends, rate).1
  {
    var x, y := ends[s.start], ends[s.end - 1];
    assert StartTimes(ends)[s.end] == y;
    assert 0.0 <= x <= y;
    ScaleMonotone(x, y, rate);
    TruncateMonotone(x * rate as real, y * rate as real);
    assert SampleSpan(s, ends, rate).0 == Truncate(x * rate as real);
    assert SampleSpan(s, ends, rate).1 == Truncate(y * rate as real);
  }

  lemma SpanBefore(s: Segment, t: Segment, ends: seq<real>, rate: Rate)
    requires s.start < s.end == t.start < t.end < |ends|
    requires NonDecreasing(ends) && ends[0] >= 0.0
    ensures SampleSpan(s, ends, rate).1 <= SampleSpan(t, ends, rate).0
  {
    var x, y := ends[s.end - 1], ends[s.end];
    assert StartTimes(ends)[s.end] == x;
    assert 0.0 <= x <= y;
    ScaleMonotone(x, y, rate);
    TruncateMonotone(x * rate as real, y * rate as real);
    assert SampleSpan(s, ends, rate).1 == Truncate(x * rate as real);
    assert SampleSpan(t, ends, rate).0 == Truncate(y * rate as real);
  }

  /** With non-negative, non-decreasing end times, the sample ranges of the
      pieces are ordered and do not overlap. */
  lemma SpansOrdered(words: seq<string>, ends: seq<real>, c: Config, segs: seq<Segment>)
    requires Partition(words, ends, c, segs)
    requires NonDecreasing(ends) && ends[0] >= 0.0
    ensures forall k :: 0 <= k < |segs| ==>
              0 <= SampleSpan(segs[k], ends, c.sampleRate).0 <= SampleSpan(segs[k], ends, c.sampleRate).1
    ensures forall k :: 0 <= k < |segs| - 1 ==>
              SampleSpan(segs[k], ends, c.sampleRate).1 <= SampleSpan(segs[k + 1], ends, c.sampleRate).0
  {
    forall k | 0 <= k < |segs| {
      SpanWithin(segs[k], ends, c.sampleRate);
    }
    forall k | 0 <= k < |segs| - 1 {
      SpanBefore(segs[k], segs[k + 1], ends, c.sampleRate);
    }
  }
}
