/**
  The `volumes` report (`volumes_show`): six numbers derived from the
  module-wide counters, printed as a fixed nine-line text, plus a parser for
  that text that recovers the six numbers.
 */
module Report {
  import opened Stats
  import opened Optional

  /** `reqs ? bytes / reqs : 0`: the average request size, zero when nothing was counted. */
  function Avg(bytes: nat, reqs: nat): (a: nat)
    ensures reqs == 0 ==> a == 0
    ensures reqs > 0 ==> a * reqs <= bytes < (a + 1) * reqs
  {
    if reqs > 0 then bytes / reqs else 0
  }

  /** The six numbers of the report, in the order they are printed. */
  datatype Summary = Summary(readReqs: nat, readAvg: nat,
                             writeReqs: nat, writeAvg: nat,
                             totalReqs: nat, totalAvg: nat)

  /**
    The arithmetic of `volumes_show`: totals are the sums of the read and
    write counters, and each average is the whole number of bytes per
    request of its own pair, or 0 when that pair counted no request.
   */
  function Summarize(s: Stats): (r: Summary)
    ensures r.readReqs == s.readReqs && r.writeReqs == s.writeReqs
    ensures r.totalReqs == s.readReqs + s.writeReqs
    ensures s.readReqs == 0 ==> r.readAvg == 0
    ensures s.readReqs > 0 ==> r.readAvg * s.readReqs <= s.readBytes < (r.readAvg + 1) * s.readReqs
    ensures s.writeReqs == 0 ==> r.writeAvg == 0
    ensures s.writeReqs > 0 ==> r.writeAvg * s.writeReqs <= s.writeBytes < (r.writeAvg + 1) * s.writeReqs
    ensures r.totalReqs == 0 ==> r.totalAvg == 0
    ensures r.totalReqs > 0 ==>
      r.totalAvg * r.totalReqs <= s.readBytes + s.writeBytes < (r.totalAvg + 1) * r.totalReqs
  {
    var totalReqs := s.readReqs + s.writeReqs;
    var totalBytes := s.readBytes + s.writeBytes;
    Summary(s.readReqs, Avg(s.readBytes, s.readReqs),
            s.writeReqs, Avg(s.writeBytes, s.writeReqs),
            totalReqs, Avg(totalBytes, totalReqs))
  }

  lemma MulLeft(x: nat, y: nat, n: nat)
    requires x <= y
    ensures x * n <= y * n
  {
  }

  lemma LtFromMul(x: nat, y: nat, n: nat)
    requires x * n < y * n
    ensures x < y
  {
  }

  /** A floor quotient of a sum is at least the smaller floor quotient of its parts. */
  lemma MediantLower(b1: nat, n1: nat, a1: nat, b2: nat, n2: nat, a2: nat, t: nat, lo: nat)
    requires n1 > 0 && n2 > 0
    requires a1 * n1 <= b1 && a2 * n2 <= b2
    requires b1 + b2 < (t + 1) * (n1 + n2)
    requires lo <= a1 && lo <= a2
    ensures lo <= t
  {
    MulLeft(lo, a1, n1);
    MulLeft(lo, a2, n2);
    assert lo * (n1 + n2) == lo * n1 + lo * n2;
    LtFromMul(lo, t + 1, n1 + n2);
  }

  /** A floor quotient of a sum is at most the larger floor quotient of its parts. */
  lemma MediantUpper(b1: nat, n1: nat, a1: nat, b2: nat, n2: nat, a2: nat, t: nat, hi: nat)
    requires n1 > 0 && n2 > 0
    requires b1 < (a1 + 1) * n1 && b2 < (a2 + 1) * n2
    requires t * (n1 + n2) <= b1 + b2
    requires a1 <= hi && a2 <= hi
    ensures t <= hi
  {
    MulLeft(a1 + 1, hi + 1, n1);
    MulLeft(a2 + 1, hi + 1, n2);
    assert (hi + 1) * (n1 + n2) == (hi + 1) * n1 + (hi + 1) * n2;
    LtFromMul(t, hi + 1, n1 + n2);
  }

  /**
    When both directions counted requests, the total average lies between
    the read and the write average.
   */
  lemma TotalAvgBetween(s: Stats)
    requires s.readReqs > 0 && s.writeReqs > 0
    ensures var r := Summarize(s);
      && (r.readAvg <= r.writeAvg ==> r.readAvg <= r.totalAvg <= r.writeAvg)
      && (r.writeAvg <= r.readAvg ==> r.writeAvg <= r.totalAvg <= r.readAvg)
  {
    var r := Summarize(s);
    var lo := if r.readAvg <= r.writeAvg then r.readAvg else r.writeAvg;
    var hi := if r.readAvg <= r.writeAvg then r.writeAvg else r.readAvg;
    MediantLower(s.readBytes, s.readReqs, r.readAvg, s.writeBytes, s.writeReqs, r.writeAvg, r.totalAvg, lo);
    MediantUpper(s.readBytes, s.readReqs, r.readAvg, s.writeBytes, s.writeReqs, r.writeAvg, r.totalAvg, hi);
  }

  /** When only reads were counted, the total average is the read average. */
  lemma TotalAvgOfReadsOnly(s: Stats)
    requires s.writeReqs == 0 && s.writeBytes == 0
    ensures Summarize(s).totalAvg == Summarize(s).readAvg
  {
  }

  // ---- Decimal numbers ----

  predicate IsDigit(c: char)
  {
    '0' <= c <= '9'
  }

  predicate AllDigits(s: string)
  {
    forall i :: 0 <= i < |s| ==> IsDigit(s[i])
  }

  function DigitChar(d: nat): (c: char)
    requires d < 10
    ensures IsDigit(c)
  {
    (('0' as int) + d) as char
  }

  function DigitValue(c: char): (d: nat)
    requires IsDigit(c)
    ensures d < 10
  {
    (c as int) - ('0' as int)
  }

  /** `%llu`: the base-10 digits of `n`, most significant first. */
  function Decimal(n: nat): (s: string)
    ensures |s| > 0 && AllDigits(s)
    ensures '\n' !in s
    ensures n == 0 || s[0] != '0'
    decreases n
  {
    if n < 10 then [DigitChar(n)] else Decimal(n / 10) + [DigitChar(n % 10)]
  }

  /** The number a string of base-10 digits denotes. */
  function DigitsValue(s: string): (n: nat)
    requires AllDigits(s)
  {
    if |s| == 0 then 0 else 10 * DigitsValue(s[..|s| - 1]) + DigitValue(s[|s| - 1])
  }

  /** Printed digits read back as the number printed. */
  lemma {:induction false} DecimalRoundTrip(n: nat)
    ensures DigitsValue(Decimal(n)) == n
    decreases n
  {
    var s := Decimal(n);
    if n >= 10 {
      DecimalRoundTrip(n / 10);
      assert s[..|s| - 1] == Decimal(n / 10);
    }
  }

  /** A digit string in the form `%llu` prints: no leading zero unless it is "0". */
  predicate Canonical(s: string)
  {
    |s| > 0 && AllDigits(s) && (s == "0" || s[0] != '0')
  }

  lemma DigitRoundTrip(c: char)
    requires IsDigit(c)
    ensures DigitChar(DigitValue(c)) == c
  {
  }

  /** A digit string without leading zero denotes a positive number unless it is "0". */
  lemma {:induction false} CanonicalPositive(s: string)
    requires Canonical(s) && s != "0"
    ensures DigitsValue(s) > 0
  {
    if |s| > 1 {
      var init := s[..|s| - 1];
      assert init[0] == s[0];
      CanonicalPositive(init);
    } else {
      assert s == [s[0]];
    }
  }

  /** `Decimal(n)` is the only canonical digit string denoting `n`. */
  lemma {:induction false} DecimalUnique(s: string)
    requires Canonical(s)
    ensures Decimal(DigitsValue(s)) == s
    decreases |s|
  {
    var n := DigitsValue(s);
    var last := s[|s| - 1];
    DigitRoundTrip(last);
    if |s| == 1 {
      assert s == [last];
    } else {
      var init := s[..|s| - 1];
      assert init[0] == s[0];
      assert s != "0";
      CanonicalPositive(init);
      DecimalUnique(init);
      assert n / 10 == DigitsValue(init) && n % 10 == DigitValue(last);
      assert s == init + [last];
    }
  }

  /** Reads a number in the form `%llu` prints it; leading zeros are refused. */
  function ParseNumber(s: string): (r: Option<nat>)
    ensures r.Some? <==> Canonical(s)
    ensures r.Some? ==> s == Decimal(r.value)
  {
    if Canonical(s) then
      DecimalUnique(s);
      Some(DigitsValue(s))
    else None
  }

  // ---- Lines ----

  /** Each line followed by a newline, concatenated. */
  function Unlines(ls: seq<string>): (text: string)
  {
    if |ls| == 0 then "" else ls[0] + "\n" + Unlines(ls[1..])
  }

  /** The index of the first newline of `s`, or `|s|` when it has none. */
  function LineEnd(s: string): (i: nat)
    ensures i <= |s|
    ensures i < |s| ==> s[i] == '\n'
    ensures forall j :: 0 <= j < i ==> s[j] != '\n'
  {
    if |s| == 0 || s[0] == '\n' then 0 else 1 + LineEnd(s[1..])
  }

  /**
    The newline-terminated lines of `s`; a last line without newline is kept
    here and refused by `ParseReport`.
   */
  function SplitLines(s: string): (ls: seq<string>)
    decreases |s|
  {
    if |s| == 0 then []
    else
      var i := LineEnd(s);
      [s[..i]] + (if i < |s| then SplitLines(s[i + 1..]) else [])
  }

  lemma {:induction false} LineEndOfLine(l: string, rest: string)
    requires '\n' !in l
    ensures LineEnd(l + "\n" + rest) == |l|
  {
    if |l| > 0 {
      var s := l + "\n" + rest;
      assert s[0] == l[0];
      assert s[1..] == l[1..] + "\n" + rest;
      LineEndOfLine(l[1..], rest);
    }
  }

  /** Lines without newlines survive being joined and split again. */
  lemma {:induction false} SplitUnlines(ls: seq<string>)
    requires forall k :: 0 <= k < |ls| ==> '\n' !in ls[k]
    ensures SplitLines(Unlines(ls)) == ls
  {
    if |ls| > 0 {
      var s := Unlines(ls);
      LineEndOfLine(ls[0], Unlines(ls[1..]));
      assert s[..|ls[0]|] == ls[0];
      assert s[|ls[0]| + 1..] == Unlines(ls[1..]);
      SplitUnlines(ls[1..]);
    }
  }

  /** Joined lines end in a newline. */
  lemma {:induction false} UnlinesEndsInNewline(ls: seq<string>)
    requires |ls| > 0
    ensures var text := Unlines(ls); |text| > 0 && text[|text| - 1] == '\n'
  {
    if |ls| > 1 {
      UnlinesEndsInNewline(ls[1..]);
    }
  }

  /** A text that is empty or ends in a newline is exactly its lines joined again. */
  lemma {:induction false} UnlinesSplit(s: string)
    requires |s| == 0 || s[|s| - 1] == '\n'
    ensures Unlines(SplitLines(s)) == s
    decreases |s|
  {
    if |s| > 0 {
      var i := LineEnd(s);
      assert i < |s|;
      var rest := s[i + 1..];
      SplitLinesFirst(s);
      UnlinesSplit(rest);
      JoinFirstLine(s, i);
    }
  }

  /** A text with a newline splits into its first line and the lines after it. */
  lemma SplitLinesFirst(s: string)
    requires |s| > 0 && LineEnd(s) < |s|
    ensures SplitLines(s) == [s[..LineEnd(s)]] + SplitLines(s[LineEnd(s) + 1..])
  {
  }

  lemma JoinFirstLine(s: string, i: nat)
    requires i < |s| && s[i] == '\n'
    requires Unlines(SplitLines(s[i + 1..])) == s[i + 1..]
    ensures Unlines([s[..i]] + SplitLines(s[i + 1..])) == s
  {
    var ls := [s[..i]] + SplitLines(s[i + 1..]);
    assert ls[0] == s[..i] && ls[1..] == SplitLines(s[i + 1..]);
    assert s == s[..i] + "\n" + s[i + 1..];
  }

  // ---- The report text ----

  const ReqsLabel: string := "  reqs: "
  const AvgLabel: string := "  avg size: "

  /** The nine lines `volumes_show` prints: a header and two counters per direction. */
  function ReportLines(r: Summary): (ls: seq<string>)
  {
    [ "read:",
      ReqsLabel + Decimal(r.readReqs), AvgLabel + Decimal(r.readAvg),
      "write:",
      ReqsLabel + Decimal(r.writeReqs), AvgLabel + Decimal(r.writeAvg),
      "total:",
      ReqsLabel + Decimal(r.totalReqs), AvgLabel + Decimal(r.totalAvg) ]
  }

  function ReportText(r: Summary): (text: string)
  {
    Unlines(ReportLines(r))
  }

  /** The number after `tag` on `line`, if the line starts with it. */
  function Field(line: string, tag: string): (r: Option<nat>)
  {
    if tag <= line then ParseNumber(line[|tag|..]) else None
  }

  /** Reads the six numbers back from a report text; `None` if it is not one. */
  function ParseReport(text: string): (r: Option<Summary>)
  {
    var ls := SplitLines(text);
    if |text| == 0 || text[|text| - 1] != '\n' then None
    else if |ls| != 9 || ls[0] != "read:" || ls[3] != "write:" || ls[6] != "total:" then None
    else
      match (Field(ls[1], ReqsLabel), Field(ls[2], AvgLabel),
             Field(ls[4], ReqsLabel), Field(ls[5], AvgLabel),
             Field(ls[7], ReqsLabel), Field(ls[8], AvgLabel))
      case (Some(a), Some(b), Some(c), Some(d), Some(e), Some(f)) => Some(Summary(a, b, c, d, e, f))
      case _ => None
  }

  lemma FieldRoundTrip(tag: string, n: nat)
    ensures Field(tag + Decimal(n), tag) == Some(n)
  {
    var line := tag + Decimal(n);
    assert line[|tag|..] == Decimal(n);
    DecimalRoundTrip(n);
  }

  /** A field is read only from the exact text `%llu` prints after its tag. */
  lemma FieldExact(line: string, tag: string, n: nat)
    requires Field(line, tag) == Some(n)
    ensures line == tag + Decimal(n)
  {
    assert line == tag + line[|tag|..];
  }

  lemma NoNewlineAfterLabel(tag: string, n: nat)
    requires '\n' !in tag
    ensures '\n' !in tag + Decimal(n)
  {
  }

  /** The report text lists read, write and total in order and reads back as what was printed. */
  lemma ReportRoundTrip(r: Summary)
    ensures ParseReport(ReportText(r)) == Some(r)
  {
    var ls := ReportLines(r);
    assert '\n' !in ReqsLabel && '\n' !in AvgLabel;
    NoNewlineAfterLabel(ReqsLabel, r.readReqs);
    NoNewlineAfterLabel(AvgLabel, r.readAvg);
    NoNewlineAfterLabel(ReqsLabel, r.writeReqs);
    NoNewlineAfterLabel(AvgLabel, r.writeAvg);
    NoNewlineAfterLabel(ReqsLabel, r.totalReqs);
    NoNewlineAfterLabel(AvgLabel, r.totalAvg);
    SplitUnlines(ls);
    UnlinesEndsInNewline(ls);
    FieldRoundTrip(ReqsLabel, r.readReqs);
    FieldRoundTrip(AvgLabel, r.readAvg);
    FieldRoundTrip(ReqsLabel, r.writeReqs);
    FieldRoundTrip(AvgLabel, r.writeAvg);
    FieldRoundTrip(ReqsLabel, r.totalReqs);
    FieldRoundTrip(AvgLabel, r.totalAvg);
  }

  /** Whatever the parser accepts is the report printed for what it returns. */
  lemma ParseReportSound(text: string, r: Summary)
    requires ParseReport(text) == Some(r)
    ensures text == ReportText(r)
  {
    var ls := SplitLines(text);
    assert |text| > 0 && text[|text| - 1] == '\n';
    assert |ls| == 9 && ls[0] == "read:" && ls[3] == "write:" && ls[6] == "total:";
    assert Field(ls[1], ReqsLabel) == Some(r.readReqs) && Field(ls[2], AvgLabel) == Some(r.readAvg);
    assert Field(ls[4], ReqsLabel) == Some(r.writeReqs) && Field(ls[5], AvgLabel) == Some(r.writeAvg);
    assert Field(ls[7], ReqsLabel) == Some(r.totalReqs) && Field(ls[8], AvgLabel) == Some(r.totalAvg);
    FieldExact(ls[1], ReqsLabel, r.readReqs);
    FieldExact(ls[2], AvgLabel, r.readAvg);
    FieldExact(ls[4], ReqsLabel, r.writeReqs);
    FieldExact(ls[5], AvgLabel, r.writeAvg);
    FieldExact(ls[7], ReqsLabel, r.totalReqs);
    FieldExact(ls[8], AvgLabel, r.totalAvg);
    assert ls == ReportLines(r);
    UnlinesSplit(text);
  }

  /** The parser accepts exactly the texts `volumes_show` prints, and nothing else. */
  lemma ParseReportExact(text: string, r: Summary)
    ensures ParseReport(text) == Some(r) <==> text == ReportText(r)
  {
    if ParseReport(text) == Some(r) {
      ParseReportSound(text, r);
    }
    if text == ReportText(r) {
      ReportRoundTrip(r);
    }
  }

  /** Different summaries are printed as different texts. */
  lemma ReportTextInjective(r1: Summary, r2: Summary)
    requires ReportText(r1) == ReportText(r2)
    ensures r1 == r2
  {
    ReportRoundTrip(r1);
    ReportRoundTrip(r2);
  }

  /**
    `volumes_show`: the text printed for the module-wide counters, which
    reads back as exactly their summary.
   */
  function VolumesShow(global: Stats): (text: string)
    ensures ParseReport(text) == Some(Summarize(global))
  {
    ReportRoundTrip(Summarize(global));
    ReportText(Summarize(global))
  }
}
