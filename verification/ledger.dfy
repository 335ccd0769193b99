/** The ledger `train.txt`: one line per kept utterance, its six columns
    joined with `|`. The preprocessing entry points append lines to it and,
    once every dataset directory is done, read it back to print summary
    statistics. The file is modelled as its content string. */
module Ledger {
  import opened Wrappers
  import opened Strings
  import opened Utterance

  /** `str(x)` for each item of a record, in column order. */
  function Fields(r: Record): (f: seq<string>)
    ensures |f| == 6
  {
    [r.source, r.melName, r.embedName, Decimal(r.samples), Decimal(r.melFrames), r.text]
  }

  /** `"|".join(str(x) for x in metadatum) + "\n"` */
  function FormatLine(r: Record): string {
    Join("|", Fields(r)) + "\n"
  }

  /** The lines written for `rs`, one after the other. */
  function FormatLedger(rs: seq<Record>): string {
    if |rs| == 0 then "" else FormatLine(rs[0]) + FormatLedger(rs[1..])
  }

  lemma {:induction false} FormatLedgerAppend(a: seq<Record>, b: seq<Record>)
    ensures FormatLedger(a + b) == FormatLedger(a) + FormatLedger(b)
  {
    if |a| == 0 {
      assert a + b == b;
    } else {
      assert (a + b)[1..] == a[1..] + b;
      FormatLedgerAppend(a[1..], b);
      AppendAssoc(FormatLine(a[0]), FormatLedger(a[1..]), FormatLedger(b));
    }
  }

  /** A text column that survives the trip through the file: no column
      separator and no line break. */
  predicate CleanText(s: string) {
    '|' !in s && '\n' !in s && '\r' !in s
  }

  predicate Clean(r: Record) {
    CleanText(r.source) && CleanText(r.melName) && CleanText(r.embedName) && CleanText(r.text)
  }

  predicate AllClean(rs: seq<Record>) {
    forall k :: 0 <= k < |rs| ==> Clean(rs[k])
  }

  // ---------------------------------------------------------------------------
  // Reading the ledger back

  function SplitRows(lines: seq<string>): (rows: seq<seq<string>>)
    ensures |rows| == |lines|
    ensures forall k :: 0 <= k < |lines| ==> rows[k] == Split(lines[k], '|')
  {
    if |lines| == 0 then [] else [Split(lines[0], '|')] + SplitRows(lines[1..])
  }

  /** `[line.split("|") for line in metadata_file]` */
  function ReadRows(content: string): seq<seq<string>> {
    SplitRows(ReadLines(content))
  }

  /** The columns a line of `r` is read back as: the text keeps the line's
      terminating newline. */
  function RowOf(r: Record): (row: seq<string>)
    ensures |row| == 6
  {
    [r.source, r.melName, r.embedName, Decimal(r.samples), Decimal(r.melFrames), r.text + "\n"]
  }

  function RowsOf(rs: seq<Record>): (rows: seq<seq<string>>)
    ensures |rows| == |rs|
    ensures forall k :: 0 <= k < |rs| ==> rows[k] == RowOf(rs[k])
  {
    if |rs| == 0 then [] else [RowOf(rs[0])] + RowsOf(rs[1..])
  }

  function LinesOf(rs: seq<Record>): (lines: seq<string>)
    ensures |lines| == |rs|
    ensures forall k :: 0 <= k < |rs| ==> lines[k] == FormatLine(rs[k])
  {
    if |rs| == 0 then [] else [FormatLine(rs[0])] + LinesOf(rs[1..])
  }

  lemma {:induction false} FormatLedgerLines(rs: seq<Record>)
    ensures FormatLedger(rs) == Concat(LinesOf(rs))
  {
    if |rs| > 0 {
      FormatLedgerLines(rs[1..]);
      assert LinesOf(rs)[1..] == LinesOf(rs[1..]);
    }
  }

  lemma JoinExtendLast(sep: string, parts: seq<string>, x: string)
    requires |parts| >= 1
    ensures Join(sep, parts) + x == Join(sep, parts[..|parts| - 1] + [parts[|parts| - 1] + x])
    decreases |parts|
  {
    if |parts| > 1 {
      var rest := parts[1..];
      JoinExtendLast(sep, rest, x);
      var ext := parts[..|parts| - 1] + [parts[|parts| - 1] + x];
      assert ext[0] == parts[0];
      assert ext[1..] == rest[..|rest| - 1] + [rest[|rest| - 1] + x];
      AppendAssoc(parts[0] + sep, Join(sep, rest), x);
    }
  }

  lemma DecimalClean(n: nat)
    ensures CleanText(Decimal(n))
  {
    var d := Decimal(n);
    assert forall k :: 0 <= k < |d| ==> IsDigit(d[k]);
  }

  /** A line of a clean record splits back into its columns. */
  lemma SplitLine(r: Record)
    requires Clean(r)
    ensures Split(FormatLine(r), '|') == RowOf(r)
    ensures IsLine(FormatLine(r))
  {
    var f := Fields(r);
    JoinExtendLast("|", f, "\n");
    assert f[..5] + [f[5] + "\n"] == RowOf(r);
    DecimalClean(r.samples);
    DecimalClean(r.melFrames);
    var row := RowOf(r);
    assert forall k :: 0 <= k < 6 ==> '|' !in row[k];
    SplitJoin(row, '|');
    NoBreaksInJoin(f);
    var l := FormatLine(r);
    assert l[..|l| - 1] == Join("|", f);
  }

  lemma {:induction false} NoBreaksInJoin(f: seq<string>)
    requires forall k :: 0 <= k < |f| ==> '\n' !in f[k] && '\r' !in f[k]
    ensures '\n' !in Join("|", f) && '\r' !in Join("|", f)
  {
    if |f| > 1 {
      NoBreaksInJoin(f[1..]);
      assert Join("|", f) == (f[0] + "|") + Join("|", f[1..]);
    }
  }

  /** Reading back a ledger written from clean records gives one row per
      record, with the record's columns. */
  lemma {:induction false} ReadRowsOfLedger(rs: seq<Record>)
    requires AllClean(rs)
    ensures ReadRows(FormatLedger(rs)) == RowsOf(rs)
  {
    var lines := LinesOf(rs);
    forall k | 0 <= k < |lines|
      ensures IsLine(lines[k]) && Split(lines[k], '|') == RowOf(rs[k])
    {
      SplitLine(rs[k]);
    }
    FormatLedgerLines(rs);
    ReadLinesConcat(lines);
  }

  /** Appending to an existing ledger (`open(..., "a")`) keeps the rows already
      there and adds the new ones after them. */
  lemma ReadRowsAfterAppend(existing: string, rs: seq<Record>)
    requires |existing| == 0 || existing[|existing| - 1] == '\n'
    requires '\r' !in existing
    requires AllClean(rs)
    ensures ReadRows(existing + FormatLedger(rs)) == ReadRows(existing) + RowsOf(rs)
  {
    var lines := LinesOf(rs);
    forall k | 0 <= k < |lines|
      ensures IsLine(lines[k])
    {
      SplitLine(rs[k]);
    }
    FormatLedgerLines(rs);
    NoCarriageReturn(lines);
    ReadLinesAppend(existing, FormatLedger(rs));
    ReadRowsOfLedger(rs);
    SplitRowsAppend(ReadLines(existing), ReadLines(FormatLedger(rs)));
  }

  lemma {:induction false} SplitRowsAppend(a: seq<string>, b: seq<string>)
    ensures SplitRows(a + b) == SplitRows(a) + SplitRows(b)
  {
  }

  // ---------------------------------------------------------------------------
  // Decoding rows into records

  /** A row in the shape a written line has: six columns, the two counts
      readable by `int`, the text ending in the line's newline. */
  function DecodeRow(row: seq<string>): (r: Option<Record>)
    ensures r.Some? ==> |row| == 6 && RowOf(r.value)[..3] == row[..3]
  {
    if |row| != 6 then None
    else
      var samples :- PyInt(row[3]);
      var frames :- PyInt(row[4]);
      var t := row[5];
      if |t| == 0 || t[|t| - 1] != '\n' then None
      else Some(Record(row[0], row[1], row[2], samples, frames, t[..|t| - 1]))
  }

  function DecodeRows(rows: seq<seq<string>>): (r: Option<seq<Record>>)
    ensures r.Some? ==> |r.value| == |rows|
  {
    if |rows| == 0 then Some([])
    else
      var first :- DecodeRow(rows[0]);
      var rest :- DecodeRows(rows[1..]);
      Some([first] + rest)
  }

  /** The records a ledger holds, or `None` when a line is not in the written
      shape. */
  function ReadLedger(content: string): Option<seq<Record>> {
    DecodeRows(ReadRows(content))
  }

  /** The two count columns of a written row read back as the counts. */
  lemma CountCells(r: Record)
    ensures PyInt(RowOf(r)[3]) == Some(r.samples)
    ensures PyInt(RowOf(r)[4]) == Some(r.melFrames)
  {
    PyIntOfDecimal(r.samples);
    PyIntOfDecimal(r.melFrames);
  }

  lemma TextCell(r: Record)
    ensures var t := RowOf(r)[5]; |t| > 0 && t[|t| - 1] == '\n' && t[..|t| - 1] == r.text
  {
    var t := RowOf(r)[5];
    assert t == r.text + "\n";
  }

  lemma DecodeRowOf(r: Record)
    ensures DecodeRow(RowOf(r)) == Some(r)
  {
    CountCells(r);
    TextCell(r);
  }

  lemma {:induction false} DecodeRowsOf(rs: seq<Record>)
    ensures DecodeRows(RowsOf(rs)) == Some(rs)
  {
    if |rs| > 0 {
      var rows := RowsOf(rs);
      DecodeRowOf(rs[0]);
      DecodeRowsOf(rs[1..]);
      assert rows[0] == RowOf(rs[0]) && rows[1..] == RowsOf(rs[1..]);
      DecodeRowsCons(rows, rs[0], rs[1..]);
      assert [rs[0]] + rs[1..] == rs;
    }
  }

  lemma DecodeRowsCons(rows: seq<seq<string>>, r: Record, rest: seq<Record>)
    requires |rows| > 0
    ensures DecodeRow(rows[0]) == Some(r) && DecodeRows(rows[1..]) == Some(rest) ==>
              DecodeRows(rows) == Some([r] + rest)
  {
  }

  /** Writing clean records and reading the ledger back gives the same records. */
  lemma LedgerRoundTrip(rs: seq<Record>)
    requires AllClean(rs)
    ensures ReadLedger(FormatLedger(rs)) == Some(rs)
  {
    ReadRowsOfLedger(rs);
    DecodeRowsOf(rs);
  }

  // ---------------------------------------------------------------------------
  // The closing statistics

  datatype LedgerError =
    | MissingColumn(row: nat, column: nat)   // `m[column]` raised IndexError
    | NotANumber(row: nat, column: nat)      // `int(m[column])` raised ValueError
    | EmptyLedger                            // `max` of an empty sequence

  /** The printed summary, without the hours (a float). */
  datatype Report = Report(
    utterances: nat,
    melFrames: nat,
    timesteps: nat,
    maxTextLength: nat,
    maxMelFrames: nat,
    maxTimesteps: nat)

  /** `toInt(row[col])` does not raise; the column is read with `int`. */
  predicate HasNumber(row: seq<string>, col: nat, toInt: string -> Option<nat>) {
    col < |row| && toInt(row[col]).Some?
  }

  /** `[toInt(m[col]) for m in rows]`, failing at the first row where it raises;
      rows are numbered from `base`. */
  function Column(rows: seq<seq<string>>, col: nat, base: nat, toInt: string -> Option<nat>): (r: Result<seq<nat>, LedgerError>)
    ensures r.Success? ==> |r.value| == |rows|
    decreases |rows|
  {
    if |rows| == 0 then Success([])
    else if col >= |rows[0]| then Failure(MissingColumn(base, col))
    else
      match toInt(rows[0][col])
      case None => Failure(NotANumber(base, col))
      case Some(n) =>
        var rest :- Column(rows[1..], col, base + 1, toInt);
        Success([n] + rest)
  }

  /** Index of the first row with no number in column `col`, or `|rows|`. */
  function FirstWithout(rows: seq<seq<string>>, col: nat, toInt: string -> Option<nat>): (i: nat)
    ensures i <= |rows|
    ensures forall k :: 0 <= k < i ==> HasNumber(rows[k], col, toInt)
    ensures i < |rows| ==> !HasNumber(rows[i], col, toInt)
  {
    if |rows| == 0 || !HasNumber(rows[0], col, toInt) then 0 else 1 + FirstWithout(rows[1..], col, toInt)
  }

  /** Reading the column fails exactly when some row has no number there, and
      the error names the first such row and whether the column was missing
      or unreadable. */
  lemma {:induction false} ColumnFailure(rows: seq<seq<string>>, col: nat, base: nat, toInt: string -> Option<nat>)
    ensures Column(rows, col, base, toInt).Failure? <==> FirstWithout(rows, col, toInt) < |rows|
    ensures Column(rows, col, base, toInt).Failure? ==>
              var i := FirstWithout(rows, col, toInt);
              Column(rows, col, base, toInt).error ==
                (if col < |rows[i]| then NotANumber(base + i, col) else MissingColumn(base + i, col))
    decreases |rows|
  {
    if |rows| > 0 && HasNumber(rows[0], col, toInt) {
      ColumnFailure(rows[1..], col, base + 1, toInt);
    }
  }

  /** A column with a number in every row holds exactly those numbers. */
  lemma {:induction false} ColumnIs(rows: seq<seq<string>>, col: nat, base: nat, toInt: string -> Option<nat>, vals: seq<nat>)
    requires |vals| == |rows|
    requires forall k :: 0 <= k < |rows| ==> col < |rows[k]| && toInt(rows[k][col]) == Some(vals[k])
    ensures Column(rows, col, base, toInt) == Success(vals)
    decreases |rows|
  {
    if |rows| > 0 {
      ColumnIs(rows[1..], col, base + 1, toInt, vals[1..]);
      assert vals == [vals[0]] + vals[1..];
    }
  }

  /** `[len(m[5]) for m in rows]`, failing at the first short row; rows are
      numbered from `base`. When `trim` is set, a trailing newline is not
      counted. */
  function TextLengths(rows: seq<seq<string>>, trim: bool, base: nat): (r: Result<seq<nat>, LedgerError>)
    ensures r.Success? ==> |r.value| == |rows|
    decreases |rows|
  {
    if |rows| == 0 then Success([])
    else if |rows[0]| <= 5 then Failure(MissingColumn(base, 5))
    else
      var rest :- TextLengths(rows[1..], trim, base + 1);
      Success([TextLength(rows[0][5], trim)] + rest)
  }

  /** Index of the first row with no sixth column, or `|rows|`. */
  function FirstShort(rows: seq<seq<string>>): (i: nat)
    ensures i <= |rows|
    ensures forall k :: 0 <= k < i ==> 5 < |rows[k]|
    ensures i < |rows| ==> |rows[i]| <= 5
  {
    if |rows| == 0 || |rows[0]| <= 5 then 0 else 1 + FirstShort(rows[1..])
  }

  /** Measuring the texts fails exactly at the first row without a sixth
      column. */
  lemma {:induction false} TextLengthsFailure(rows: seq<seq<string>>, trim: bool, base: nat)
    ensures TextLengths(rows, trim, base).Failure? <==> FirstShort(rows) < |rows|
    ensures TextLengths(rows, trim, base).Failure? ==>
              TextLengths(rows, trim, base).error == MissingColumn(base + FirstShort(rows), 5)
    decreases |rows|
  {
    if |rows| > 0 && |rows[0]| > 5 {
      TextLengthsFailure(rows[1..], trim, base + 1);
    }
  }

  lemma {:induction false} TextLengthsAre(rows: seq<seq<string>>, trim: bool, base: nat, vals: seq<nat>)
    requires |vals| == |rows|
    requires forall k :: 0 <= k < |rows| ==> 5 < |rows[k]| && TextLength(rows[k][5], trim) == vals[k]
    ensures TextLengths(rows, trim, base) == Success(vals)
    decreases |rows|
  {
    if |rows| > 0 {
      TextLengthsAre(rows[1..], trim, base + 1, vals[1..]);
      assert vals == [vals[0]] + vals[1..];
    }
  }

  function TextLength(t: string, trim: bool): nat {
    if trim && |t| > 0 && t[|t| - 1] == '\n' then |t| - 1 else |t|
  }

  function Total(xs: seq<nat>): nat {
    if |xs| == 0 then 0 else xs[0] + Total(xs[1..])
  }

  function Largest(xs: seq<nat>): (m: nat)
    requires |xs| > 0
    ensures m in xs
    ensures forall k :: 0 <= k < |xs| ==> xs[k] <= m
  {
    if |xs| == 1 then xs[0]
    else
      var rest := Largest(xs[1..]);
      if xs[0] >= rest then xs[0] else rest
  }

  /** The statement sequence closing both entry points, in its evaluation
      order: the two sums, then the three maxima. */
  function Summarize(rows: seq<seq<string>>, trim: bool): (r: Result<Report, LedgerError>) {
    var frames :- Column(rows, 4, 0, PyInt);
    var samples :- Column(rows, 3, 0, PyInt);
    if |rows| == 0 then Failure(EmptyLedger)
    else
      var texts :- TextLengths(rows, trim, 0);
      Success(Report(|rows|, Total(frames), Total(samples), Largest(texts), Largest(frames), Largest(samples)))
  }

  /** The statistics are produced exactly when there is at least one row and
      every row has both counts and a text column. */
  lemma SummarizeSucceeds(rows: seq<seq<string>>, trim: bool)
    ensures Summarize(rows, trim).Success? <==>
              && |rows| > 0
              && forall k :: 0 <= k < |rows| ==> HasNumber(rows[k], 4, PyInt) && HasNumber(rows[k], 3, PyInt) && 5 < |rows[k]|
  {
    ColumnFailure(rows, 4, 0, PyInt);
    ColumnFailure(rows, 3, 0, PyInt);
    TextLengthsFailure(rows, trim, 0);
    var f4, f3, f5 := FirstWithout(rows, 4, PyInt), FirstWithout(rows, 3, PyInt), FirstShort(rows);
    if f4 < |rows| {
      assert !HasNumber(rows[f4], 4, PyInt);
    } else if f3 < |rows| {
      assert !HasNumber(rows[f3], 3, PyInt);
    } else if |rows| > 0 && f5 < |rows| {
      assert |rows[f5]| <= 5;
    }
  }

  /** An empty ledger aborts the statistics (`max` of nothing raises); when
      some row lacks a count, the error names the first such row, frames
      first. */
  lemma SummarizeFailure(rows: seq<seq<string>>, trim: bool)
    ensures FirstWithout(rows, 4, PyInt) < |rows| ==>
              && Column(rows, 4, 0, PyInt).Failure?
              && Summarize(rows, trim) == Failure(Column(rows, 4, 0, PyInt).error)
    ensures FirstWithout(rows, 4, PyInt) == |rows| && FirstWithout(rows, 3, PyInt) < |rows| ==>
              && Column(rows, 3, 0, PyInt).Failure?
              && Summarize(rows, trim) == Failure(Column(rows, 3, 0, PyInt).error)
    ensures |rows| == 0 ==> Summarize(rows, trim) == Failure(EmptyLedger)
  {
    ColumnFailure(rows, 4, 0, PyInt);
    ColumnFailure(rows, 3, 0, PyInt);
  }

  /** With all three columns read, the report holds their sums and maxima. */
  lemma SummarizeOf(rows: seq<seq<string>>, trim: bool, frames: seq<nat>, samples: seq<nat>, texts: seq<nat>)
    requires |rows| > 0
    requires Column(rows, 4, 0, PyInt) == Success(frames)
    requires Column(rows, 3, 0, PyInt) == Success(samples)
    requires TextLengths(rows, trim, 0) == Success(texts)
    ensures |frames| == |samples| == |texts| == |rows|
    ensures Summarize(rows, trim) ==
            Success(Report(|rows|, Total(frames), Total(samples), Largest(texts), Largest(frames), Largest(samples)))
  {
  }

  /** The closing statistics as written: the longest text is measured with the
      line's trailing newline. */
  function Verify(content: string): Result<Report, LedgerError> {
    Summarize(ReadRows(content), false)
  }

  /** The closing statistics measuring the texts themselves. */
  function VerifyCorrected(content: string): Result<Report, LedgerError> {
    Summarize(ReadRows(content), true)
  }

  // ---------------------------------------------------------------------------
  // What the statistics say about a ledger the preprocessing wrote

  function SampleCounts(rs: seq<Record>): (s: seq<nat>)
    ensures |s| == |rs| && forall k :: 0 <= k < |rs| ==> s[k] == rs[k].samples
  {
    if |rs| == 0 then [] else [rs[0].samples] + SampleCounts(rs[1..])
  }

  function FrameCounts(rs: seq<Record>): (s: seq<nat>)
    ensures |s| == |rs| && forall k :: 0 <= k < |rs| ==> s[k] == rs[k].melFrames
  {
    if |rs| == 0 then [] else [rs[0].melFrames] + FrameCounts(rs[1..])
  }

  function TextSizes(rs: seq<Record>): (s: seq<nat>)
    ensures |s| == |rs| && forall k :: 0 <= k < |rs| ==> s[k] == |rs[k].text|
  {
    if |rs| == 0 then [] else [|rs[0].text|] + TextSizes(rs[1..])
  }

  /** The report a ledger of `rs` deserves: counts and maxima of the records
      themselves. */
  function Expected(rs: seq<Record>): Report
    requires |rs| > 0
  {
    Report(|rs|, Total(FrameCounts(rs)), Total(SampleCounts(rs)),
           Largest(TextSizes(rs)), Largest(FrameCounts(rs)), Largest(SampleCounts(rs)))
  }

  lemma SampleColumn(rs: seq<Record>)
    ensures Column(RowsOf(rs), 3, 0, PyInt) == Success(SampleCounts(rs))
  {
    var rows := RowsOf(rs);
    forall k | 0 <= k < |rows|
      ensures 3 < |rows[k]| && PyInt(rows[k][3]) == Some(SampleCounts(rs)[k])
    {
      CountCells(rs[k]);
    }
    ColumnIs(rows, 3, 0, PyInt, SampleCounts(rs));
  }

  lemma FrameColumn(rs: seq<Record>)
    ensures Column(RowsOf(rs), 4, 0, PyInt) == Success(FrameCounts(rs))
  {
    var rows := RowsOf(rs);
    forall k | 0 <= k < |rows|
      ensures 4 < |rows[k]| && PyInt(rows[k][4]) == Some(FrameCounts(rs)[k])
    {
      CountCells(rs[k]);
    }
    ColumnIs(rows, 4, 0, PyInt, FrameCounts(rs));
  }

  /** `len(m[5])` of a written row counts the text and its newline. */
  lemma TextColumn(rs: seq<Record>, trim: bool, vals: seq<nat>)
    requires |vals| == |rs|
    requires forall k :: 0 <= k < |rs| ==> vals[k] == |rs[k].text| + (if trim then 0 else 1)
    ensures TextLengths(RowsOf(rs), trim, 0) == Success(vals)
  {
    var rows := RowsOf(rs);
    forall k | 0 <= k < |rows|
      ensures 5 < |rows[k]| && TextLength(rows[k][5], trim) == vals[k]
    {
      var x := rs[k].text + "\n";
      assert rows[k][5] == x && x[|x| - 1] == '\n';
    }
    TextLengthsAre(rows, trim, 0, vals);
  }

  function TextSizesWithNewline(rs: seq<Record>): (s: seq<nat>)
    ensures |s| == |rs| && forall k :: 0 <= k < |rs| ==> s[k] == |rs[k].text| + 1
  {
    if |rs| == 0 then [] else [|rs[0].text| + 1] + TextSizesWithNewline(rs[1..])
  }

  /** Every length one larger: so is the maximum. */
  lemma LargestShift(xs: seq<nat>, ys: seq<nat>)
    requires |xs| == |ys| > 0
    requires forall k :: 0 <= k < |xs| ==> ys[k] == xs[k] + 1
    ensures Largest(ys) == Largest(xs) + 1
  {
    var m := Largest(xs);
    var k :| 0 <= k < |xs| && xs[k] == m;
    assert ys[k] == m + 1;
    var n := Largest(ys);
    var j :| 0 <= j < |ys| && ys[j] == n;
    assert xs[j] <= m;
  }

  /** The corrected statistics of a non-empty written ledger are exactly the
      counts and maxima of its records. */
  lemma VerifyCorrectedOfLedger(rs: seq<Record>)
    requires AllClean(rs) && |rs| > 0
    ensures VerifyCorrected(FormatLedger(rs)) == Success(Expected(rs))
  {
    ReadRowsOfLedger(rs);
    var rows := RowsOf(rs);
    SampleColumn(rs);
    FrameColumn(rs);
    TextColumn(rs, true, TextSizes(rs));
    SummarizeOf(rows, true, FrameCounts(rs), SampleCounts(rs), TextSizes(rs));
  }

  /** The statistics as written report the longest text one character too
      long, and agree with the corrected ones on everything else. */
  lemma VerifyOfLedger(rs: seq<Record>)
    requires AllClean(rs) && |rs| > 0
    ensures Verify(FormatLedger(rs)) ==
            Success(Expected(rs).(maxTextLength := Expected(rs).maxTextLength + 1))
  {
    VerifyWithNewline(rs);
    LargestWithNewline(rs);
  }

  lemma VerifyWithNewline(rs: seq<Record>)
    requires AllClean(rs) && |rs| > 0
    ensures Verify(FormatLedger(rs)) ==
            Success(Expected(rs).(maxTextLength := Largest(TextSizesWithNewline(rs))))
  {
    ReadRowsOfLedger(rs);
    var rows := RowsOf(rs);
    var longer := TextSizesWithNewline(rs);
    SampleColumn(rs);
    FrameColumn(rs);
    TextColumn(rs, false, longer);
    SummarizeOf(rows, false, FrameCounts(rs), SampleCounts(rs), longer);
  }

  lemma LargestWithNewline(rs: seq<Record>)
    requires |rs| > 0
    ensures Largest(TextSizesWithNewline(rs)) == Expected(rs).maxTextLength + 1
  {
    LargestShift(TextSizes(rs), TextSizesWithNewline(rs));
  }

  /** A ledger of one record is reported with that record's counts, and a
      longest text one longer than its text. */
  lemma VerifySingle(r: Record)
    requires Clean(r)
    ensures Verify(FormatLedger([r])) == Success(Report(1, r.melFrames, r.samples, |r.text| + 1, r.melFrames, r.samples))
  {
    assert AllClean([r]);
    VerifyOfLedger([r]);
    ExpectedSingle(r);
  }

  lemma ExpectedSingle(r: Record)
    ensures Expected([r]) == Report(1, r.melFrames, r.samples, |r.text|, r.melFrames, r.samples)
  {
    assert FrameCounts([r]) == [r.melFrames] && SampleCounts([r]) == [r.samples] && TextSizes([r]) == [|r.text|];
    TotalSingle(r.melFrames);
    TotalSingle(r.samples);
  }

  lemma TotalSingle(x: nat)
    ensures Total([x]) == x
  {
    assert [x][1..] == [];
  }

  /** A concrete ledger: one utterance whose text is `"ab"` is reported with a
      longest text of 3 characters. */
  lemma VerifyCountsNewline(r: Record)
    requires r == Record("a.wav", "mel-a.npy", "embed-a.npy", 8000, 40, "ab")
    ensures Verify(FormatLedger([r])) == Success(Report(1, 40, 8000, 3, 40, 8000))
  {
    VerifySingle(r);
  }

  /** An empty ledger aborts the statistics: `max` of nothing raises. */
  lemma VerifyEmpty()
    ensures Verify("") == Failure(EmptyLedger)
    ensures VerifyCorrected("") == Failure(EmptyLedger)
  {
    assert ReadLines("") == [];
  }
}
