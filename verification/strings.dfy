/** The handful of Python string operations the preprocessing code relies on,
    written out with Python's semantics: `sep.join`, `str.split(sep)`,
    `str.split()`, `str.rstrip()`, `str.replace`, `str(n)`, `int(s)`,
    `"%02d" % n`, and line iteration over a file opened in text mode. */
module Strings {
  import opened Wrappers

  /** Python's `str.isspace` on one character: the characters that `str.split()`
      separates on and `str.rstrip()` removes. */
  predicate IsSpace(c: char) {
    var n := c as int;
    || 9 <= n <= 13
    || 28 <= n <= 32
    || n == 0x85 || n == 0xA0 || n == 0x1680
    || 0x2000 <= n <= 0x200A
    || n == 0x2028 || n == 0x2029 || n == 0x202F || n == 0x205F || n == 0x3000
  }

  predicate IsDigit(c: char) {
    '0' <= c <= '9'
  }

  // ---------------------------------------------------------------------------
  // ''.join and sep.join

  /** `''.join(parts)` */
  function Concat(parts: seq<string>): string {
    if |parts| == 0 then "" else parts[0] + Concat(parts[1..])
  }

  lemma {:induction false} ConcatAppend(a: seq<string>, b: seq<string>)
    ensures Concat(a + b) == Concat(a) + Concat(b)
  {
    if |a| == 0 {
      assert a + b == b;
    } else {
      assert (a + b)[1..] == a[1..] + b;
      ConcatAppend(a[1..], b);
    }
  }

  /** `sep.join(parts)` */
  function Join(sep: string, parts: seq<string>): string {
    if |parts| == 0 then ""
    else if |parts| == 1 then parts[0]
    else parts[0] + sep + Join(sep, parts[1..])
  }

  // ---------------------------------------------------------------------------
  // str.split(sep) with a one-character separator

  /** `s.split(sep)`: the pieces between occurrences of `sep`, empty pieces kept. */
  function Split(s: string, sep: char): (r: seq<string>)
    ensures |r| >= 1
    ensures forall k :: 0 <= k < |r| ==> sep !in r[k]
  {
    if |s| == 0 then [""]
    else if s[0] == sep then [""] + Split(s[1..], sep)
    else
      var rest := Split(s[1..], sep);
      [[s[0]] + rest[0]] + rest[1..]
  }

  /** Splitting a string that begins with a separator-free piece `p`. */
  lemma {:induction false} SplitPrefix(p: string, t: string, sep: char)
    requires sep !in p
    ensures Split(p + t, sep) == [p + Split(t, sep)[0]] + Split(t, sep)[1..]
  {
    if |p| == 0 {
      assert p + t == t;
      var r := Split(t, sep);
      assert r == [r[0]] + r[1..];
      assert p + r[0] == r[0];
    } else {
      assert (p + t)[0] == p[0];
      assert (p + t)[1..] == p[1..] + t;
      SplitPrefix(p[1..], t, sep);
      assert [p[0]] + (p[1..] + Split(t, sep)[0]) == p + Split(t, sep)[0];
    }
  }

  /** `s.split(sep)` undoes `sep.join(parts)` when no part holds the separator. */
  lemma {:induction false} SplitJoin(parts: seq<string>, sep: char)
    requires |parts| >= 1
    requires forall k :: 0 <= k < |parts| ==> sep !in parts[k]
    ensures Split(Join([sep], parts), sep) == parts
  {
    if |parts| == 1 {
      SplitPrefix(parts[0], "", sep);
      assert parts[0] + "" == parts[0];
    } else {
      var rest := Join([sep], parts[1..]);
      assert Join([sep], parts) == parts[0] + ([sep] + rest);
      SplitPrefix(parts[0], [sep] + rest, sep);
      assert ([sep] + rest)[1..] == rest;
      SplitJoin(parts[1..], sep);
      assert Split([sep] + rest, sep) == [""] + parts[1..];
      assert parts[0] + "" == parts[0];
      assert parts == [parts[0]] + parts[1..];
    }
  }

  /** `sep.join(s.split(sep))` gives back `s`: splitting loses nothing. */
  lemma {:induction false} JoinSplit(s: string, sep: char)
    ensures Join([sep], Split(s, sep)) == s
  {
    if |s| == 0 {
    } else if s[0] == sep {
      JoinSplit(s[1..], sep);
      JoinCons([sep], "", Split(s[1..], sep));
      assert s == [sep] + s[1..];
    } else {
      var rest := Split(s[1..], sep);
      JoinSplit(s[1..], sep);
      assert Split(s, sep) == [[s[0]] + rest[0]] + rest[1..];
      if |rest| == 1 {
        assert s == [s[0]] + rest[0];
      } else {
        JoinCons([sep], [s[0]] + rest[0], rest[1..]);
        JoinCons([sep], rest[0], rest[1..]);
        assert rest == [rest[0]] + rest[1..];
        assert s == [s[0]] + s[1..];
      }
    }
  }

  lemma JoinCons(sep: string, p: string, rest: seq<string>)
    requires |rest| > 0
    ensures Join(sep, [p] + rest) == p + sep + Join(sep, rest)
  {
    assert ([p] + rest)[1..] == rest;
  }

  // ---------------------------------------------------------------------------
  // str.rstrip() and str.split()

  /** `s.rstrip()`: trailing whitespace removed. */
  function RStrip(s: string): (r: string)
    ensures r <= s
    ensures |r| == 0 || !IsSpace(r[|r| - 1])
    ensures forall k :: |r| <= k < |s| ==> IsSpace(s[k])
  {
    if |s| > 0 && IsSpace(s[|s| - 1]) then RStrip(s[..|s| - 1]) else s
  }

  /** `s.lstrip()`: leading whitespace removed. */
  function LStrip(s: string): (r: string)
    ensures |r| <= |s| && r == s[|s| - |r|..]
    ensures |r| == 0 || !IsSpace(r[0])
    ensures forall k :: 0 <= k < |s| - |r| ==> IsSpace(s[k])
  {
    if |s| > 0 && IsSpace(s[0]) then LStrip(s[1..]) else s
  }

  /** `s.strip()` */
  function Strip(s: string): string {
    LStrip(RStrip(s))
  }

  /** A string that neither starts nor ends with whitespace is its own strip. */
  lemma StripUnchanged(s: string)
    requires |s| == 0 || (!IsSpace(s[0]) && !IsSpace(s[|s| - 1]))
    ensures Strip(s) == s
  {
  }

  /** Length of the leading run of non-whitespace characters of `s`. */
  function TokenLength(s: string): (k: nat)
    ensures k <= |s|
    ensures forall j :: 0 <= j < k ==> !IsSpace(s[j])
    ensures k == |s| || IsSpace(s[k])
  {
    if |s| == 0 || IsSpace(s[0]) then 0 else 1 + TokenLength(s[1..])
  }

  /** `s.split()`: the maximal runs of non-whitespace characters, in order. */
  function Words(s: string): (r: seq<string>)
    ensures forall k :: 0 <= k < |r| ==> |r[k]| > 0
    ensures forall k, j :: 0 <= k < |r| && 0 <= j < |r[k]| ==> !IsSpace(r[k][j])
    decreases |s|
  {
    if |s| == 0 then []
    else if IsSpace(s[0]) then Words(s[1..])
    else
      var k := TokenLength(s);
      [s[..k]] + Words(s[k..])
  }

  /** `s.split()` undoes a single-space join of non-empty, whitespace-free words. */
  lemma {:induction false} WordsJoin(ws: seq<string>)
    requires forall k :: 0 <= k < |ws| ==> |ws[k]| > 0
    requires forall k, j :: 0 <= k < |ws| && 0 <= j < |ws[k]| ==> !IsSpace(ws[k][j])
    ensures Words(Join(" ", ws)) == ws
  {
    if |ws| == 0 {
    } else {
      var w := ws[0];
      var rest := if |ws| == 1 then "" else " " + Join(" ", ws[1..]);
      assert Join(" ", ws) == w + rest;
      TokenOfPrefix(w, rest);
      assert (w + rest)[..|w|] == w;
      assert (w + rest)[|w|..] == rest;
      if |ws| > 1 {
        assert IsSpace(rest[0]);
        assert rest[1..] == Join(" ", ws[1..]);
        WordsJoin(ws[1..]);
      }
    }
  }

  lemma {:induction false} TokenOfPrefix(w: string, rest: string)
    requires forall j :: 0 <= j < |w| ==> !IsSpace(w[j])
    requires |rest| == 0 || IsSpace(rest[0])
    ensures TokenLength(w + rest) == |w|
  {
    if |w| == 0 {
      assert w + rest == rest;
    } else {
      assert (w + rest)[1..] == w[1..] + rest;
      TokenOfPrefix(w[1..], rest);
    }
  }

  // ---------------------------------------------------------------------------
  // str.replace

  /** `s.replace(a, b)` for one-character `a` and `b`. */
  function ReplaceChar(s: string, a: char, b: char): (r: string)
    ensures |r| == |s|
    ensures forall k :: 0 <= k < |s| ==> r[k] == (if s[k] == a then b else s[k])
  {
    if |s| == 0 then "" else [if s[0] == a then b else s[0]] + ReplaceChar(s[1..], a, b)
  }

  /** `s` with every occurrence of `c` removed. */
  function Drop(s: string, c: char): string {
    if |s| == 0 then "" else (if s[0] == c then "" else [s[0]]) + Drop(s[1..], c)
  }

  lemma {:induction false} DropRemoves(s: string, c: char)
    ensures c !in Drop(s, c)
    ensures |Drop(s, c)| <= |s|
  {
    if |s| > 0 {
      DropRemoves(s[1..], c);
    }
  }

  lemma {:induction false} DropAppend(a: string, b: string, c: char)
    ensures Drop(a + b, c) == Drop(a, c) + Drop(b, c)
  {
    if |a| == 0 {
      assert a + b == b;
    } else {
      assert (a + b)[0] == a[0];
      assert (a + b)[1..] == a[1..] + b;
      DropAppend(a[1..], b, c);
    }
  }

  /** `s.replace("  ", " ")`: scanning left to right, each non-overlapping pair
      of spaces becomes one space (so three spaces become two). Only spaces
      are removed. */
  function CollapseDoubleSpaces(s: string): (r: string)
    ensures |r| <= |s|
    ensures Drop(r, ' ') == Drop(s, ' ')
  {
    if |s| >= 2 && s[0] == ' ' && s[1] == ' ' then
      assert s == [' '] + s[1..];
      assert s[1..] == [' '] + s[2..];
      DropAppend([' '], s[1..], ' ');
      DropAppend([' '], s[2..], ' ');
      DropAppend([' '], CollapseDoubleSpaces(s[2..]), ' ');
      [' '] + CollapseDoubleSpaces(s[2..])
    else if |s| == 0 then ""
    else
      assert s == [s[0]] + s[1..];
      DropAppend([s[0]], s[1..], ' ');
      DropAppend([s[0]], CollapseDoubleSpaces(s[1..]), ' ');
      [s[0]] + CollapseDoubleSpaces(s[1..])
  }

  // ---------------------------------------------------------------------------
  // str(n), int(s) and "%02d" % n

  function DigitChar(d: nat): (c: char)
    requires d < 10
    ensures IsDigit(c)
  {
    ['0', '1', '2', '3', '4', '5', '6', '7', '8', '9'][d]
  }

  function DigitValue(c: char): (d: nat)
    requires IsDigit(c)
    ensures d < 10
  {
    (c as int) - ('0' as int)
  }

  /** `str(n)` for a non-negative integer: its decimal digits, no leading zero. */
  function Decimal(n: nat): (r: string)
    ensures |r| >= 1
    ensures forall k :: 0 <= k < |r| ==> IsDigit(r[k])
    ensures |r| > 1 ==> r[0] != '0'
    ensures n < 10 <==> |r| == 1
  {
    if n < 10 then [DigitChar(n)] else Decimal(n / 10) + [DigitChar(n % 10)]
  }

  function DigitsValue(s: string): nat
    requires forall k :: 0 <= k < |s| ==> IsDigit(s[k])
  {
    if |s| == 0 then 0 else 10 * DigitsValue(s[..|s| - 1]) + DigitValue(s[|s| - 1])
  }

  /** `int(s)` restricted to strings of ASCII digits; anything else is an error. */
  function ParseNat(s: string): Option<nat> {
    if |s| > 0 && forall k :: 0 <= k < |s| ==> IsDigit(s[k]) then Some(DigitsValue(s)) else None
  }

  lemma {:induction false} DigitsValueOfDecimal(n: nat)
    ensures DigitsValue(Decimal(n)) == n
  {
    var r := Decimal(n);
    if n < 10 {
      assert DigitValue(DigitChar(n)) == n by {
        assert DigitChar(n) as int == '0' as int + n;
      }
    } else {
      DigitsValueOfDecimal(n / 10);
      assert r[..|r| - 1] == Decimal(n / 10);
      assert DigitValue(DigitChar(n % 10)) == n % 10 by {
        assert DigitChar(n % 10) as int == '0' as int + n % 10;
      }
    }
  }

  /** The digit parser reads back what `str` writes. */
  lemma ParseDecimal(n: nat)
    ensures ParseNat(Decimal(n)) == Some(n)
  {
    DigitsValueOfDecimal(n);
  }

  /** `int(s)`: surrounding whitespace is ignored, the rest must be ASCII
      digits. */
  function PyInt(s: string): Option<nat> {
    ParseNat(Strip(s))
  }

  /** `int(str(n)) == n` */
  lemma PyIntOfDecimal(n: nat)
    ensures PyInt(Decimal(n)) == Some(n)
  {
    var d := Decimal(n);
    assert !IsSpace(d[0]) && !IsSpace(d[|d| - 1]);
    StripUnchanged(d);
    ParseDecimal(n);
  }

  /** `str` is injective on non-negative integers. */
  lemma DecimalInjective(m: nat, n: nat)
    requires Decimal(m) == Decimal(n)
    ensures m == n
  {
    DigitsValueOfDecimal(m);
    DigitsValueOfDecimal(n);
  }

  /** `"%02d" % n`: at least two digits, zero-padded. */
  function Pad2(n: nat): (r: string)
    ensures |r| >= 2
    ensures forall k :: 0 <= k < |r| ==> IsDigit(r[k])
  {
    if n < 10 then "0" + Decimal(n) else Decimal(n)
  }

  /** Different numbers get different zero-padded renderings. */
  lemma Pad2Injective(m: nat, n: nat)
    requires Pad2(m) == Pad2(n)
    ensures m == n
  {
    if m < 10 && n < 10 {
      assert Decimal(m) == Pad2(m)[1..];
      assert Decimal(n) == Pad2(n)[1..];
      DecimalInjective(m, n);
    } else if m >= 10 && n >= 10 {
      DecimalInjective(m, n);
    }
  }

  // ---------------------------------------------------------------------------
  // Line iteration over a file opened in text mode

  /** Universal-newline translation on reading: `"\r\n"` and a lone `"\r"` both
      become `"\n"`. */
  function TranslateNewlines(s: string): (r: string)
    ensures '\r' !in r
    ensures '\r' !in s ==> r == s
  {
    if |s| == 0 then ""
    else if s[0] == '\r' && |s| >= 2 && s[1] == '\n' then "\n" + TranslateNewlines(s[2..])
    else if s[0] == '\r' then "\n" + TranslateNewlines(s[1..])
    else [s[0]] + TranslateNewlines(s[1..])
  }

  /** Index of the first `'\n'` in `s`, or `|s|` when there is none. */
  function LineEnd(s: string): (k: nat)
    ensures k <= |s|
    ensures forall j :: 0 <= j < k ==> s[j] != '\n'
    ensures k < |s| ==> s[k] == '\n'
  {
    if |s| == 0 || s[0] == '\n' then 0 else 1 + LineEnd(s[1..])
  }

  /** Splits after each `'\n'`, keeping it; a final piece without `'\n'` is kept. */
  function SplitKeepEnds(s: string): (r: seq<string>)
    ensures Concat(r) == s
    ensures forall k :: 0 <= k < |r| ==> |r[k]| > 0
    decreases |s|
  {
    if |s| == 0 then []
    else
      var k := LineEnd(s);
      if k == |s| then
        assert Concat([s]) == s + "";
        [s]
      else
        var rest := SplitKeepEnds(s[k + 1..]);
        assert s == s[..k + 1] + s[k + 1..];
        [s[..k + 1]] + rest
  }

  /** The lines `for line in open(path, "r")` yields for a file whose content is `s`. */
  function ReadLines(s: string): seq<string> {
    SplitKeepEnds(TranslateNewlines(s))
  }

  /** A string ending in exactly one `'\n'`, which holds no other line break. */
  predicate IsLine(l: string) {
    |l| > 0 && l[|l| - 1] == '\n' && '\n' !in l[..|l| - 1] && '\r' !in l
  }

  lemma {:induction false} LineEndOfLine(l: string, t: string)
    requires IsLine(l)
    ensures LineEnd(l + t) == |l| - 1
  {
    if |l| == 1 {
      assert (l + t)[0] == '\n';
    } else {
      assert (l + t)[0] == l[0];
      assert l[0] in l[..|l| - 1];
      assert (l + t)[1..] == l[1..] + t;
      assert l[1..][..|l[1..]| - 1] == l[1..|l| - 1];
      LineEndOfLine(l[1..], t);
    }
  }

  /** Reading back a file made of whole lines gives exactly those lines. */
  lemma {:induction false} ReadLinesConcat(lines: seq<string>)
    requires forall k :: 0 <= k < |lines| ==> IsLine(lines[k])
    ensures ReadLines(Concat(lines)) == lines
  {
    NoCarriageReturn(lines);
    SplitConcat(lines);
  }

  lemma {:induction false} NoCarriageReturn(lines: seq<string>)
    requires forall k :: 0 <= k < |lines| ==> IsLine(lines[k])
    ensures '\r' !in Concat(lines)
  {
    if |lines| > 0 {
      NoCarriageReturn(lines[1..]);
    }
  }

  lemma {:induction false} SplitConcat(lines: seq<string>)
    requires forall k :: 0 <= k < |lines| ==> IsLine(lines[k])
    ensures SplitKeepEnds(Concat(lines)) == lines
  {
    if |lines| > 0 {
      var l := lines[0];
      var s := Concat(lines);
      assert s == l + Concat(lines[1..]);
      LineEndOfLine(l, Concat(lines[1..]));
      assert s[..|l|] == l;
      assert s[|l|..] == Concat(lines[1..]);
      SplitConcat(lines[1..]);
      assert lines == [l] + lines[1..];
    }
  }

  /** Lines of a file that ends in a newline are unaffected by what is appended
      after it: reading `a + b` gives the lines of `a` followed by those of `b`. */
  lemma ReadLinesAppend(a: string, b: string)
    requires |a| == 0 || a[|a| - 1] == '\n'
    requires '\r' !in a && '\r' !in b
    ensures ReadLines(a + b) == ReadLines(a) + ReadLines(b)
  {
    assert '\r' !in a + b;
    SplitKeepEndsAppend(a, b);
  }

  lemma {:induction false} SplitKeepEndsAppend(a: string, b: string)
    requires |a| == 0 || a[|a| - 1] == '\n'
    ensures SplitKeepEnds(a + b) == SplitKeepEnds(a) + SplitKeepEnds(b)
    decreases |a|
  {
    if |a| == 0 {
      assert a + b == b;
    } else {
      var k := LineEnd(a);
      LineEndPrefix(a, b);
      var a' := a[k + 1..];
      var l := a[..k + 1];
      assert |a'| == 0 || a'[|a'| - 1] == '\n';
      assert (a + b)[..k + 1] == l;
      assert (a + b)[k + 1..] == a' + b;
      SplitKeepEndsUnfold(a);
      SplitKeepEndsUnfold(a + b);
      SplitKeepEndsAppend(a', b);
      AppendAssoc([l], SplitKeepEnds(a'), SplitKeepEnds(b));
    }
  }

  lemma AppendAssoc<T>(x: seq<T>, y: seq<T>, z: seq<T>)
    ensures x + (y + z) == (x + y) + z
  {
  }

  lemma SplitKeepEndsUnfold(s: string)
    requires LineEnd(s) < |s|
    ensures SplitKeepEnds(s) == [s[..LineEnd(s) + 1]] + SplitKeepEnds(s[LineEnd(s) + 1..])
  {
  }

  lemma {:induction false} LineEndPrefix(a: string, b: string)
    requires LineEnd(a) < |a|
    ensures LineEnd(a + b) == LineEnd(a)
  {
    if a[0] == '\n' {
      assert (a + b)[0] == '\n';
    } else {
      assert (a + b)[0] == a[0];
      assert (a + b)[1..] == a[1..] + b;
      LineEndPrefix(a[1..], b);
    }
  }
}
