/** Synced LRC text: the printer (internal/lyrics/writer.go, writeSyncedLRC) and the parser
    (internal/petitlyrics/client.go, parseLRC). */
module Lrc {
  import opened Prelude
  import opened Text

  datatype Time = Time(minutes: int, seconds: int, hundredths: int)

  datatype Line = Line(text: string, time: Time)

  // ----- Printing -----

  function Digit(d: int): char
    requires 0 <= d <= 9
  {
    ['0', '1', '2', '3', '4', '5', '6', '7', '8', '9'][d]
  }

  function Decimal(n: nat): string {
    if n < 10 then [Digit(n)] else Decimal(n / 10) + [Digit(n % 10)]
  }

  /** %02d */
  function Pad2(n: int): string {
    if n < 0 then "-" + Decimal(-n) else if n < 10 then ['0', Digit(n)] else Decimal(n)
  }

  function Stamp(t: Time): string {
    "[" + Pad2(t.minutes) + ":" + Pad2(t.seconds) + "." + Pad2(t.hundredths) + "]"
  }

  /** An empty line is shown as a music note. */
  function Shown(text: string): string {
    if text == "" then "\U{266A}" else text
  }

  function PrintLine(line: Line): string {
    Stamp(line.time) + Shown(line.text)
  }

  function Rendered(lines: seq<Line>): (r: seq<string>)
    ensures |r| == |lines|
    ensures forall i :: 0 <= i < |lines| ==> r[i] == PrintLine(lines[i])
  {
    seq(|lines|, i requires 0 <= i < |lines| => PrintLine(lines[i]))
  }

  /** Lines as text, each ended by a newline. */
  function Terminated(raws: seq<string>): string {
    if raws == [] then "" else Terminated(raws[..|raws| - 1]) + raws[|raws| - 1] + "\n"
  }

  function Print(lines: seq<Line>): string {
    Terminated(Rendered(lines))
  }

  /** The lines written for the first n originals: with interleaving, each is followed by its
      translation under the original's timestamp. */
  function Written(lines: seq<Line>, translations: seq<Line>, interleave: bool, n: nat): seq<Line>
    requires n <= |lines|
  {
    if n == 0 then []
    else
      var line := lines[n - 1];
      var w := Written(lines, translations, interleave, n - 1) + [line];
      if interleave && n - 1 < |translations| then w + [Line(translations[n - 1].text, line.time)] else w
  }

  lemma PrintAppend(w: seq<Line>, line: Line)
    ensures Print(w + [line]) == Print(w) + PrintLine(line) + "\n"
  {
    var raws := Rendered(w + [line]);
    assert raws[..|w|] == Rendered(w);
  }

  /** One fmt.Sprintf and WriteString, the note standing in for an empty text. */
  method WriteLine(buff: string, text: string, time: Time, ghost w: seq<Line>) returns (buff': string)
    requires buff == Print(w)
    ensures buff' == Print(w + [Line(text, time)])
  {
    PrintAppend(w, Line(text, time));
    var t := text;
    if t == "" {
      t := "\U{266A}";
    }
    var fLine := Stamp(time) + t;
    assert fLine == PrintLine(Line(text, time));
    buff' := buff + fLine + "\n";
  }

  lemma WrittenStep(lines: seq<Line>, translations: seq<Line>, interleave: bool, i: nat)
    requires i < |lines|
    ensures Written(lines, translations, interleave, i + 1) ==
              if interleave && i < |translations| then
                Written(lines, translations, interleave, i) + [lines[i]] + [Line(translations[i].text, lines[i].time)]
              else Written(lines, translations, interleave, i) + [lines[i]]
  {
  }

  /** One turn of the loop: an original and, when interleaving, its translation. */
  method WriteEntry(buff: string, lines: seq<Line>, translations: seq<Line>, interleave: bool, i: nat)
    returns (buff': string)
    requires i < |lines| && buff == Print(Written(lines, translations, interleave, i))
    ensures buff' == Print(Written(lines, translations, interleave, i + 1))
  {
    ghost var w := Written(lines, translations, interleave, i);
    WrittenStep(lines, translations, interleave, i);
    var line := lines[i];
    buff' := WriteLine(buff, line.text, line.time, w);
    assert Line(line.text, line.time) == line;
    if interleave && i < |translations| {
      buff' := WriteLine(buff', translations[i].text, line.time, w + [line]);
    }
  }

  lemma NothingWritten(lines: seq<Line>, translations: seq<Line>, interleave: bool)
    ensures Print(Written(lines, translations, interleave, 0)) == ""
  {
  }

  method WriteEntries(lines: seq<Line>, translations: seq<Line>, interleave: bool) returns (buff: string)
    ensures buff == Print(Written(lines, translations, interleave, |lines|))
  {
    buff := "";
    NothingWritten(lines, translations, interleave);
    var i := 0;
    while i != |lines|
      invariant i <= |lines| && buff == Print(Written(lines, translations, interleave, i))
      decreases |lines| - i
    {
      buff := WriteEntry(buff, lines, translations, interleave, i);
      i := i + 1;
    }
  }

  /** What is written: interleaved only when asked to and when there is a translation at all. */
  function Output(lines: seq<Line>, translations: seq<Line>, bilingual: bool): string {
    Print(Written(lines, translations, bilingual && |translations| > 0, |lines|))
  }

  method WriteSyncedLRC(lines: seq<Line>, translations: seq<Line>, bilingual: bool) returns (buff: string)
    ensures buff == Output(lines, translations, bilingual)
  {
    buff := WriteEntries(lines, translations, bilingual && |translations| > 0);
  }

  // ----- Parsing -----

  predicate IsDigit(c: char) {
    '0' <= c <= '9'
  }

  function DigitValue(c: char): (d: int)
    requires IsDigit(c)
    ensures 0 <= d <= 9
  {
    c as int - '0' as int
  }

  /** How many digits stand at `from`, counting at most `max`. */
  function DigitRun(s: string, from: nat, max: nat): (n: nat)
    ensures n <= max && (n > 0 ==> from + n <= |s|)
    ensures forall i :: from <= i < from + n ==> IsDigit(s[i])
    decreases max
  {
    if max > 0 && from < |s| && IsDigit(s[from]) then 1 + DigitRun(s, from + 1, max - 1) else 0
  }

  function TwoDigits(a: char, b: char): int
    requires IsDigit(a) && IsDigit(b)
  {
    DigitValue(a) * 10 + DigitValue(b)
  }

  /** normalizeHundredths on a fraction of n digits. */
  function Hundredths(s: string, from: nat, n: nat): (h: int)
    requires n > 0 ==> from + n <= |s|
    requires forall i :: from <= i < from + n ==> IsDigit(s[i])
    ensures 0 <= h <= 99
  {
    if n == 0 then 0
    else if n == 1 then DigitValue(s[from]) * 10
    else TwoDigits(s[from], s[from + 1])
  }

  function At(s: string, i: nat): Option<char> {
    if i < |s| then Some(s[i]) else None
  }

  /** ^\[(\d{1,2}):(\d{2})(?:[.:](\d{1,3}))?\](.*)$ on a line without newlines. */
  function MatchLine(s: string): Option<Line> {
    var a := DigitRun(s, 1, 2);
    var p := 1 + a;
    if At(s, 0) != Some('[') || a == 0 || At(s, p) != Some(':') || DigitRun(s, p + 1, 2) != 2 then None
    else
      var minutes := if a == 1 then DigitValue(s[1]) else TwoDigits(s[1], s[2]);
      var seconds := TwoDigits(s[p + 1], s[p + 2]);
      var q := p + 3;
      if At(s, q) == Some(']') then
        Some(Line(TrimSpace(s[q + 1..]), Time(minutes, seconds, 0)))
      else
        var f := DigitRun(s, q + 1, 3);
        if (At(s, q) == Some('.') || At(s, q) == Some(':')) && f > 0 && At(s, q + 1 + f) == Some(']') then
          Some(Line(TrimSpace(s[q + 2 + f..]), Time(minutes, seconds, Hundredths(s, q + 1, f))))
        else None
  }

  /** strings.Split(text, "\n") */
  function Split(text: string): (lines: seq<string>)
    ensures |lines| > 0
    decreases |text|
  {
    var i := IndexOf(text, '\n');
    if i == |text| then [text] else [text[..i]] + Split(text[i + 1..])
  }

  function ParseRaw(raw: string): Option<Line> {
    MatchLine(TrimRightCR(raw))
  }

  /** The lines recognised among the first n. */
  function Collect(found: seq<Option<Line>>, n: nat): seq<Line>
    requires n <= |found|
  {
    if n == 0 then []
    else if found[n - 1].Some? then Collect(found, n - 1) + [found[n - 1].value]
    else Collect(found, n - 1)
  }

  function Recognised(raws: seq<string>): (found: seq<Option<Line>>)
    ensures |found| == |raws|
  {
    seq(|raws|, i requires 0 <= i < |raws| => ParseRaw(raws[i]))
  }

  /** All the lines of a text. */
  function Parsed(text: string): seq<Line> {
    var found := Recognised(Split(text));
    Collect(found, |found|)
  }

  method ParseLRC(text: string) returns (lines: seq<Line>, ok: bool)
    ensures lines == Parsed(text) && (ok <==> |lines| > 0)
  {
    var raws := Split(text);
    lines := [];
    ghost var found := Recognised(raws);
    for i := 0 to |raws|
      invariant lines == Collect(found, i)
    {
      var raw := raws[i];
      var m := ParseRaw(raw);
      if m.None? {
        continue;
      }
      lines := lines + [m.value];
    }
    ok := |lines| > 0;
  }

  // ----- Round trip -----

  predicate InRange(t: Time) {
    0 <= t.minutes <= 99 && 0 <= t.seconds <= 99 && 0 <= t.hundredths <= 99
  }

  /** Every time the parser reports has two-digit fields. */
  lemma MatchedTimesAreInRange(s: string)
    requires MatchLine(s).Some?
    ensures InRange(MatchLine(s).value.time)
  {
  }

  lemma Pad2Digits(n: int)
    requires 0 <= n <= 99
    ensures Pad2(n) == [Digit(n / 10), Digit(n % 10)]
    ensures IsDigit(Digit(n / 10)) && IsDigit(Digit(n % 10)) && TwoDigits(Digit(n / 10), Digit(n % 10)) == n
  {
    if n >= 10 { DecimalOfTwo(n / 10, n % 10); }
    DigitRoundTrip(n / 10);
    DigitRoundTrip(n % 10);
  }

  lemma DigitRoundTrip(d: int)
    requires 0 <= d <= 9
    ensures IsDigit(Digit(d)) && DigitValue(Digit(d)) == d
  {
  }

  lemma DecimalOfTwo(tens: int, ones: int)
    requires 1 <= tens <= 9 && 0 <= ones <= 9
    ensures Decimal(10 * tens + ones) == [Digit(tens), Digit(ones)]
  {
    assert Decimal(tens) == [Digit(tens)];
    assert (10 * tens + ones) / 10 == tens && (10 * tens + ones) % 10 == ones;
  }

  lemma StampShape(t: Time)
    requires InRange(t)
    ensures Stamp(t)
            == ['[', Digit(t.minutes / 10), Digit(t.minutes % 10), ':', Digit(t.seconds / 10), Digit(t.seconds % 10),
                         '.', Digit(t.hundredths / 10), Digit(t.hundredths % 10), ']']
  {
    Pad2Digits(t.minutes);
    Pad2Digits(t.seconds);
    Pad2Digits(t.hundredths);
  }

  lemma TwoRun(s: string, from: nat, max: nat)
    requires from + 2 < |s| && IsDigit(s[from]) && IsDigit(s[from + 1]) && !IsDigit(s[from + 2]) && max >= 2
    ensures DigitRun(s, from, max) == 2
  {
    assert DigitRun(s, from + 2, max - 2) == 0;
    assert DigitRun(s, from + 1, max - 1) == 1;
  }

  lemma StampedMatches(s: string)
    requires |s| >= 10 && s[0] == '[' && s[3] == ':' && s[6] == '.' && s[9] == ']'
    requires IsDigit(s[1]) && IsDigit(s[2]) && IsDigit(s[4]) && IsDigit(s[5]) && IsDigit(s[7]) && IsDigit(s[8])
    ensures MatchLine(s) == Some(Line(TrimSpace(s[10..]),
                                      Time(TwoDigits(s[1], s[2]), TwoDigits(s[4], s[5]), TwoDigits(s[7], s[8]))))
  {
    TwoRun(s, 1, 2);
    TwoRun(s, 4, 2);
    TwoRun(s, 7, 3);
  }

  lemma StampMatches(t: Time, rest: string)
    requires InRange(t)
    ensures MatchLine(Stamp(t) + rest) == Some(Line(TrimSpace(rest), t))
  {
    StampShape(t);
    Pad2Digits(t.minutes);
    Pad2Digits(t.seconds);
    Pad2Digits(t.hundredths);
    var s := Stamp(t) + rest;
    assert s[10..] == rest;
    StampedMatches(s);
  }

  /** What one printed line should come back as. */
  function Comeback(line: Line): Line {
    Line(TrimSpace(Shown(line.text)), line.time)
  }

  /** A printed line comes back with its text (trimmed) and its time exactly when every field of the
      time fits two digits. Songs longer than 99 minutes do not: their lines are dropped or misread. */
  lemma LineReturnsIff(line: Line)
    ensures MatchLine(TrimRightCR(PrintLine(line))) == Some(Comeback(line)) <==> InRange(line.time)
  {
    var stamp, rest := Stamp(line.time), Shown(line.text);
    var raw := TrimRightCR(PrintLine(line));
    TrimRightCRPrefix(stamp, rest);
    if InRange(line.time) {
      StampMatches(line.time, TrimRightCR(rest));
      TrimAfterCR(rest);
    } else if MatchLine(raw).Some? {
      MatchedTimesAreInRange(raw);
    }
  }

  /** A hundred minutes: the line vanishes. */
  lemma LongSongsLoseLines(text: string)
    ensures MatchLine(PrintLine(Line(text, Time(100, 0, 0)))) == None
  {
    assert Decimal(100) == Decimal(10) + ['0'] && Decimal(10) == Decimal(1) + ['0'];
    var s := PrintLine(Line(text, Time(100, 0, 0)));
    assert s[0] == '[' && s[1] == '1' && s[2] == '0' && s[3] == '0';
    assert DigitRun(s, 3, 0) == 0 && DigitRun(s, 2, 1) == 1 && DigitRun(s, 1, 2) == 2;
  }

  lemma NoNewlineInDecimal(n: nat)
    ensures '\n' !in Decimal(n)
  {
    if n >= 10 { NoNewlineInDecimal(n / 10); }
  }

  lemma NoNewlineInStamp(t: Time)
    ensures '\n' !in Stamp(t)
  {
    forall n: int
      ensures '\n' !in Pad2(n)
    {
      if n < 0 { NoNewlineInDecimal(-n); } else { NoNewlineInDecimal(n); }
    }
  }

  ghost predicate NewlineFree(lines: seq<Line>) {
    forall i :: 0 <= i < |lines| ==> '\n' !in lines[i].text
  }

  lemma {:induction false} SplitAfter(line: string, rest: string)
    requires '\n' !in line
    ensures Split(line + ['\n'] + rest) == [line] + Split(rest)
  {
    var text := line + ['\n'] + rest;
    IndexAfter(line, '\n', rest);
    assert text[..|line|] == line && text[|line| + 1..] == rest;
  }

  /** Splitting terminated lines gives them back, and one empty line after the last newline. */
  lemma {:induction false} SplitTerminated(raws: seq<string>, rest: string)
    requires forall i :: 0 <= i < |raws| ==> '\n' !in raws[i]
    ensures Split(Terminated(raws) + rest) == raws + Split(rest)
  {
    if raws == [] {
      assert Terminated(raws) + rest == rest;
    } else {
      var init, last := raws[..|raws| - 1], raws[|raws| - 1];
      SplitTerminated(init, last + "\n" + rest);
      Reassociate(Terminated(init), last, rest);
      SplitAfter(last, rest);
      Regrouped(raws, Split(rest));
    }
  }

  lemma Regrouped(raws: seq<string>, rest: seq<string>)
    requires raws != []
    ensures raws[..|raws| - 1] + ([raws[|raws| - 1]] + rest) == raws + rest
  {
  }

  lemma Reassociate(before: string, last: string, rest: string)
    ensures before + last + "\n" + rest == before + (last + "\n" + rest)
  {
  }

  lemma RenderedIsNewlineFree(lines: seq<Line>)
    requires NewlineFree(lines)
    ensures forall i :: 0 <= i < |lines| ==> '\n' !in Rendered(lines)[i]
  {
    forall i | 0 <= i < |lines|
      ensures '\n' !in PrintLine(lines[i])
    {
      NoNewlineInStamp(lines[i].time);
    }
  }

  function Reported(lines: seq<Line>): (r: seq<Line>)
    ensures |r| == |lines|
  {
    seq(|lines|, i requires 0 <= i < |lines| => Comeback(lines[i]))
  }

  lemma {:induction false} CollectAll(found: seq<Option<Line>>, lines: seq<Line>, n: nat)
    requires n <= |lines| <= |found| && forall i :: 0 <= i < |lines| ==> found[i] == Some(lines[i])
    ensures Collect(found, n) == lines[..n]
  {
    if n > 0 {
      CollectAll(found, lines, n - 1);
      assert lines[..n] == lines[..n - 1] + [lines[n - 1]];
    }
  }

  lemma PrintedIsRecognised(lines: seq<Line>, i: nat)
    requires i < |lines| && InRange(lines[i].time)
    ensures Recognised(Rendered(lines))[i] == Some(Reported(lines)[i])
  {
    LineReturnsIff(lines[i]);
  }

  lemma EmptyIsSkipped()
    ensures ParseRaw("") == None
  {
    assert TrimRightCR("") == "" && DigitRun("", 1, 2) == 0;
  }

  lemma RecognisedWithEmpty(raws: seq<string>)
    ensures Recognised(raws + [""]) == Recognised(raws) + [None]
  {
    EmptyIsSkipped();
  }

  lemma SplitTerminatedOnly(raws: seq<string>)
    requires forall i :: 0 <= i < |raws| ==> '\n' !in raws[i]
    ensures Split(Terminated(raws)) == raws + [""]
  {
    SplitTerminated(raws, "");
    IndexAbsent("", '\n');
    assert Terminated(raws) + "" == Terminated(raws);
  }

  lemma CollectFound(found: seq<Option<Line>>, lines: seq<Line>)
    requires |found| == |lines| && forall i :: 0 <= i < |lines| ==> found[i] == Some(lines[i])
    ensures Collect(found + [None], |lines| + 1) == lines
  {
    CollectAll(found + [None], lines, |lines|);
    assert lines[..|lines|] == lines;
  }

  lemma ParsedTerminated(raws: seq<string>, lines: seq<Line>)
    requires |raws| == |lines| && forall i :: 0 <= i < |raws| ==> '\n' !in raws[i]
    requires forall i :: 0 <= i < |raws| ==> Recognised(raws)[i] == Some(lines[i])
    ensures Parsed(Terminated(raws)) == lines
  {
    SplitTerminatedOnly(raws);
    RecognisedWithEmpty(raws);
    CollectFound(Recognised(raws), lines);
  }

  /** parse(print(lines)): every line comes back, in order, with its time and its trimmed text. */
  lemma RoundTrip(lines: seq<Line>)
    requires NewlineFree(lines) && forall i :: 0 <= i < |lines| ==> InRange(lines[i].time)
    ensures Parsed(Print(lines)) == Reported(lines)
  {
    RenderedIsNewlineFree(lines);
    forall i | 0 <= i < |lines|
      ensures Recognised(Rendered(lines))[i] == Some(Reported(lines)[i])
    {
      PrintedIsRecognised(lines, i);
    }
    ParsedTerminated(Rendered(lines), Reported(lines));
  }

  /** Trimmed, non-empty texts come back unchanged. */
  lemma TrimmedRoundTrip(lines: seq<Line>)
    requires NewlineFree(lines) && forall i :: 0 <= i < |lines| ==> InRange(lines[i].time)
    requires forall i :: 0 <= i < |lines| ==> lines[i].text != "" && TrimSpace(lines[i].text) == lines[i].text
    ensures Parsed(Print(lines)) == lines
  {
    RoundTrip(lines);
    assert Reported(lines) == lines;
  }

  // ----- Bilingual output -----

  /** `w` holds the first n originals at known positions, each followed by its translation, while
      there are any, under the original's timestamp. */
  ghost predicate Interleaves(lines: seq<Line>, translations: seq<Line>, n: nat, w: seq<Line>)
    requires n <= |lines|
  {
    && |w| == n + Min(n, |translations|)
    && (forall i :: 0 <= i < n ==> w[i + Min(i, |translations|)] == lines[i])
    && (forall i :: 0 <= i < Min(n, |translations|) ==> w[2 * i + 1] == Line(translations[i].text, lines[i].time))
  }

  /** Every original keeps a position known from the counts; surplus translations are dropped. */
  lemma {:induction false} Interleaving(lines: seq<Line>, translations: seq<Line>, n: nat)
    requires n <= |lines|
    ensures Interleaves(lines, translations, n, Written(lines, translations, true, n))
  {
    if n > 0 {
      Interleaving(lines, translations, n - 1);
      WrittenStep(lines, translations, true, n - 1);
      Interleaved(lines, translations, n - 1, Written(lines, translations, true, n - 1));
    }
  }

  /** One more original, with its translation if it has one, goes to the end. */
  lemma Interleaved(lines: seq<Line>, translations: seq<Line>, n: nat, before: seq<Line>)
    requires n < |lines| && Interleaves(lines, translations, n, before)
    ensures Interleaves(lines, translations, n + 1,
                        if n < |translations| then before + [lines[n]] + [Line(translations[n].text, lines[n].time)]
                        else before + [lines[n]])
  {
  }

  lemma {:induction false} MonolingualWritten(lines: seq<Line>, translations: seq<Line>, n: nat)
    requires n <= |lines|
    ensures Written(lines, translations, false, n) == lines[..n]
  {
    if n > 0 {
      MonolingualWritten(lines, translations, n - 1);
      assert lines[..n] == lines[..n - 1] + [lines[n - 1]];
    }
  }

  /** Parsing what WriteSyncedLRC returns when it does not interleave: every original comes back, in
      order, and unchanged if its text is trimmed and not empty. */
  lemma MonolingualRoundTrip(lines: seq<Line>, translations: seq<Line>, bilingual: bool)
    requires NewlineFree(lines) && forall i :: 0 <= i < |lines| ==> InRange(lines[i].time)
    requires !bilingual || translations == []
    ensures Parsed(Output(lines, translations, bilingual)) == Reported(lines)
    ensures (forall i :: 0 <= i < |lines| ==> lines[i].text != "" && TrimSpace(lines[i].text) == lines[i].text) ==>
              Parsed(Output(lines, translations, bilingual)) == lines
  {
    MonolingualWritten(lines, translations, |lines|);
    assert lines[..|lines|] == lines;
    RoundTrip(lines);
    if forall i :: 0 <= i < |lines| ==> lines[i].text != "" && TrimSpace(lines[i].text) == lines[i].text {
      TrimmedRoundTrip(lines);
    }
  }

  lemma {:induction false} WrittenIsNewlineFree(lines: seq<Line>, translations: seq<Line>, interleave: bool, n: nat)
    requires n <= |lines| && NewlineFree(lines) && NewlineFree(translations)
    requires forall i :: 0 <= i < |lines| ==> InRange(lines[i].time)
    ensures NewlineFree(Written(lines, translations, interleave, n))
    ensures forall i :: 0 <= i < |Written(lines, translations, interleave, n)| ==>
            InRange(Written(lines, translations, interleave, n)[i].time)
  {
    if n > 0 {
      WrittenIsNewlineFree(lines, translations, interleave, n - 1);
    }
  }

  /** Bilingual round trip: |orig| + min(|orig|, |trans|) lines come back, the i-th original at a
      position known from the counts and the i-th translation right after it. */
  lemma BilingualRoundTrip(lines: seq<Line>, translations: seq<Line>, i: nat)
    requires NewlineFree(lines) && NewlineFree(translations) && forall k :: 0 <= k < |lines| ==> InRange(lines[k].time)
    ensures var parsed := Parsed(Output(lines, translations, true));
      && |parsed| == |lines| + Min(|lines|, |translations|)
      && (i < |lines| ==> parsed[i + Min(i, |translations|)] == Comeback(lines[i]))
      && (i < Min(|lines|, |translations|) ==> parsed[2 * i + 1] == Comeback(Line(translations[i].text, lines[i].time)))
  {
    if translations == [] {
      MonolingualRoundTrip(lines, translations, true);
    } else {
      WrittenIsNewlineFree(lines, translations, true, |lines|);
      RoundTrip(Written(lines, translations, true, |lines|));
      InterleavedReport(lines, translations, i);
    }
  }

  lemma InterleavedReport(lines: seq<Line>, translations: seq<Line>, i: nat)
    ensures var r := Reported(Written(lines, translations, true, |lines|));
      && |r| == |lines| + Min(|lines|, |translations|)
      && (i < |lines| ==> r[i + Min(i, |translations|)] == Comeback(lines[i]))
      && (i < Min(|lines|, |translations|) ==> r[2 * i + 1] == Comeback(Line(translations[i].text, lines[i].time)))
  {
    Interleaving(lines, translations, |lines|);
  }
}
