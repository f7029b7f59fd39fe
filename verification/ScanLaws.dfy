/** Writing a file's lines and scanning them back (the reader and the writer of internal/lyrics/parser.go). */
module ScanLaws {
  import opened Text
  import opened Provenance

  predicate IsEol(eol: string) {
    eol == "\n" || eol == "\r\n"
  }

  /** What a line written with eol is read back as: before a bare newline a carriage return is taken
      for half of a line ending. */
  function Kept(line: string, eol: string): string {
    if eol == "\n" then DropCR(line) else line
  }

  function KeptAll(lines: seq<string>, eol: string): (r: seq<string>)
    ensures |r| == |lines|
    ensures forall i :: 0 <= i < |lines| ==> r[i] == Kept(lines[i], eol)
  {
    seq(|lines|, i requires 0 <= i < |lines| => Kept(lines[i], eol))
  }

  /** What the last line is read back as: without a newline of its own an empty one is not there. */
  function LastKept(line: string, eol: string, trailing: bool): seq<string> {
    if trailing then [Kept(line, eol)] else if line == "" then [] else [DropCR(line)]
  }

  function Rescanned(lines: seq<string>, eol: string, trailing: bool): seq<string>
    requires lines != []
  {
    KeptAll(lines[..|lines| - 1], eol) + LastKept(lines[|lines| - 1], eol, trailing)
  }

  ghost predicate NewlineFree(lines: seq<string>) {
    forall i :: 0 <= i < |lines| ==> '\n' !in lines[i]
  }

  lemma ScanFirst(line: string, eol: string, rest: string)
    requires IsEol(eol) && '\n' !in line
    ensures ScanLines(line + eol + rest) == [Kept(line, eol)] + ScanLines(rest)
  {
    var cr := if eol == "\n" then "" else "\r";
    var text := line + eol + rest;
    assert text == (line + cr) + ['\n'] + rest;
    IndexAfter(line + cr, '\n', rest);
    assert text[..|line + cr|] == line + cr && text[|line + cr| + 1..] == rest;
    assert line + "" == line;
  }

  lemma KeptOneMore(lines: seq<string>, eol: string, n: nat, rest: seq<string>)
    requires 0 < n <= |lines|
    ensures KeptAll(lines[..n - 1], eol) + ([Kept(lines[n - 1], eol)] + rest) == KeptAll(lines[..n], eol) + rest
  {
  }

  lemma Reassociate(before: string, line: string, eol: string, rest: string)
    ensures before + (line + eol) + rest == before + (line + eol + rest)
  {
  }

  lemma {:induction false} ScanPrefix(lines: seq<string>, eol: string, trailing: bool, n: nat, rest: string)
    requires IsEol(eol) && NewlineFree(lines) && n <= |lines| && (n < |lines| || trailing)
    ensures ScanLines(WrittenLines(lines, eol, trailing, n) + rest) == KeptAll(lines[..n], eol) + ScanLines(rest)
  {
    if n == 0 {
      assert WrittenLines(lines, eol, trailing, 0) + rest == rest;
    } else {
      var last := lines[n - 1];
      assert WrittenLines(lines, eol, trailing, n) == WrittenLines(lines, eol, trailing, n - 1) + (last + eol);
      ScanPrefix(lines, eol, trailing, n - 1, last + eol + rest);
      Reassociate(WrittenLines(lines, eol, trailing, n - 1), last, eol, rest);
      ScanFirst(last, eol, rest);
      KeptOneMore(lines, eol, n, ScanLines(rest));
    }
  }

  lemma ScanLast(last: string)
    requires '\n' !in last
    ensures ScanLines(last) == LastKept(last, "\n", false)
  {
    IndexAbsent(last, '\n');
  }

  lemma LastWritten(lines: seq<string>, eol: string, trailing: bool)
    requires lines != []
    ensures var n, last := |lines| - 1, lines[|lines| - 1];
      WrittenLines(lines, eol, trailing, n + 1)
        == WrittenLines(lines, eol, trailing, n) + (if trailing then last + eol else last)
  {
  }

  /** Whatever is written, with or without a final newline, this is what scanning it yields. */
  lemma ScanWritten(lines: seq<string>, eol: string, trailing: bool)
    requires IsEol(eol) && lines != [] && NewlineFree(lines)
    ensures ScanLines(WrittenLines(lines, eol, trailing, |lines|)) == Rescanned(lines, eol, trailing)
  {
    var n, last := |lines| - 1, lines[|lines| - 1];
    LastWritten(lines, eol, trailing);
    ScanPrefix(lines, eol, trailing, n, if trailing then last + eol else last);
    if trailing {
      ScanFirst(last, eol, "");
      assert last + eol + "" == last + eol;
    } else {
      ScanLast(last);
    }
  }

  /** The line survives being written with eol and scanned. */
  predicate Survives(line: string, eol: string) {
    eol == "\n" ==> !EndsWith(line, '\r')
  }

  lemma SurvivesIff(line: string, eol: string)
    requires IsEol(eol)
    ensures Kept(line, eol) == line <==> Survives(line, eol)
  {
  }

  lemma AllSurvive(lines: seq<string>, eol: string)
    requires IsEol(eol) && forall i :: 0 <= i < |lines| ==> Survives(lines[i], eol)
    ensures KeptAll(lines, eol) == lines
  {
    forall i | 0 <= i < |lines|
      ensures Kept(lines[i], eol) == lines[i]
    {
      SurvivesIff(lines[i], eol);
    }
  }

  predicate LastSurvives(last: string, eol: string, trailing: bool) {
    if trailing then Survives(last, eol) else last != "" && !EndsWith(last, '\r')
  }

  lemma LastSurvivesIff(last: string, eol: string, trailing: bool)
    requires IsEol(eol)
    ensures LastKept(last, eol, trailing) == [last] <==> LastSurvives(last, eol, trailing)
  {
  }

  lemma AppendDecides(init: seq<string>, last: string, init': seq<string>, tail: seq<string>)
    requires |init'| == |init|
    ensures init' + tail == init + [last] <==> init' == init && tail == [last]
  {
    var a, b := init' + tail, init + [last];
    if a == b {
      assert a[..|init|] == init' && b[..|init|] == init;
      assert a[|init|..] == tail && b[|init|..] == [last];
    }
  }

  /** Written lines scan back to themselves exactly when each of them survives: before a bare newline
      a line must not end in a carriage return, and the last, if written without a newline, must
      moreover not be empty. */
  lemma ScannedUnchangedIff(lines: seq<string>, eol: string, trailing: bool)
    requires IsEol(eol) && lines != [] && NewlineFree(lines)
    ensures ScanLines(WrittenLines(lines, eol, trailing, |lines|)) == lines <==>
            (forall i :: 0 <= i < |lines| - 1 ==> Survives(lines[i], eol))
              && LastSurvives(lines[|lines| - 1], eol, trailing)
  {
    var init, last := lines[..|lines| - 1], lines[|lines| - 1];
    ScanWritten(lines, eol, trailing);
    assert lines == init + [last];
    AppendDecides(init, last, KeptAll(init, eol), LastKept(last, eol, trailing));
    LastSurvivesIff(last, eol, trailing);
    InitSurvivesIff(lines, eol);
  }

  lemma InitSurvivesIff(lines: seq<string>, eol: string)
    requires IsEol(eol) && lines != []
    ensures KeptAll(lines[..|lines| - 1], eol) == lines[..|lines| - 1] <==> forall i :: 0 <= i < |lines| - 1 ==>
            Survives(lines[i], eol)
  {
    var init := lines[..|lines| - 1];
    forall i | 0 <= i < |init|
      ensures KeptAll(init, eol)[i] == init[i] <==> Survives(lines[i], eol)
    {
      SurvivesIff(init[i], eol);
    }
  }

  // ----- What scanning yields -----

  lemma {:induction false} ScannedHaveNoNewline(text: string, i: nat)
    requires i < |ScanLines(text)|
    ensures '\n' !in ScanLines(text)[i]
    decreases |text|
  {
    var k := IndexOf(text, '\n');
    assert text[..|text|] == text;
    if i > 0 { ScannedHaveNoNewline(text[k + 1..], i - 1); }
  }

  lemma CRLFInTail(text: string, k: nat)
    requires k <= |text|
    ensures HasCRLF(text[k..]) ==> HasCRLF(text)
  {
    var t := text[k..];
    if i :| 0 <= i < |t| - 1 && t[i] == '\r' && t[i + 1] == '\n' {
      assert text[k + i] == '\r' && text[k + i + 1] == '\n';
    }
  }

  lemma EndsInNoCRUpTo(text: string, k: nat)
    requires k < |text| && text[k] == '\n' && !HasCRLF(text)
    ensures !EndsWith(DropCR(text[..k]), '\r')
  {
    if k > 0 { assert text[..k][k - 1] == text[k - 1] != '\r'; }
  }

  lemma TailEndsAlike(text: string, k: nat, c: char)
    requires k <= |text| && text[k..] != ""
    ensures EndsWith(text[k..], c) == EndsWith(text, c)
  {
  }

  /** Scanned lines end in a carriage return only in a file that has CRLF, or as the last of a file
      that ends in carriage returns. */
  lemma {:induction false} ScannedEndInNoCR(text: string, i: nat)
    requires i < |ScanLines(text)| && !HasCRLF(text)
    requires i < |ScanLines(text)| - 1 || !EndsWith(text, '\r')
    ensures !EndsWith(ScanLines(text)[i], '\r')
    decreases |text|
  {
    var k := IndexOf(text, '\n');
    if k < |text| {
      if i == 0 {
        EndsInNoCRUpTo(text, k);
      } else {
        var rest := ScanLines(text[k + 1..]);
        assert ScanLines(text) == [DropCR(text[..k])] + rest;
        CRLFInTail(text, k + 1);
        TailEndsAlike(text, k + 1, '\r');
        ScannedEndInNoCR(text[k + 1..], i - 1);
      }
    }
  }

  /** A file with no final newline ends in a non-empty line, unless that line is one carriage return. */
  lemma {:induction false} UnterminatedLast(text: string)
    requires text != "" && !EndsWith(text, '\n')
    ensures ScanLines(text) != []
    ensures var last := ScanLines(text)[|ScanLines(text)| - 1];
      !EndsWith(text, '\r') ==> last != "" && !EndsWith(last, '\r')
    decreases |text|
  {
    var k := IndexOf(text, '\n');
    if k < |text| {
      var tail := text[k + 1..];
      assert tail[|tail| - 1] == text[|text| - 1];
      UnterminatedLast(tail);
    }
  }
}
