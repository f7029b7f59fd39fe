/** Injecting provenance tags into an LRC header (internal/lyrics/parser.go), as a rewriting of the
    file's text. */
module Provenance {
  import opened Prelude
  import opened Text

  // ----- Lines -----

  function DropCR(s: string): string {
    if s != "" && s[|s| - 1] == '\r' then s[..|s| - 1] else s
  }

  /** bufio.ScanLines: newline-separated lines, one carriage return stripped off each; text after
      the last newline is a line unless empty. */
  function ScanLines(text: string): seq<string>
    decreases |text|
  {
    if text == "" then []
    else
      var i := IndexOf(text, '\n');
      if i == |text| then [DropCR(text)] else [DropCR(text[..i])] + ScanLines(text[i + 1..])
  }

  predicate EndsWith(s: string, c: char) {
    s != "" && s[|s| - 1] == c
  }

  predicate HasCRLF(text: string) {
    exists i :: 0 <= i < |text| - 1 && text[i] == '\r' && text[i + 1] == '\n'
  }

  /** The first n output lines as written: each ends in eol, except the last of all when the original
      file had no final newline. */
  function WrittenLines(lines: seq<string>, eol: string, trailing: bool, n: nat): string
    requires n <= |lines|
  {
    if n == 0 then ""
    else if n == |lines| && !trailing then WrittenLines(lines, eol, trailing, n - 1) + lines[n - 1]
    else WrittenLines(lines, eol, trailing, n - 1) + (lines[n - 1] + eol)
  }

  // ----- Header tags -----

  datatype Tag = Tag(key: string, value: string, raw: string)

  function ParseTagLine(line: string): Option<Tag> {
    var s := TrimSpace(line);
    if s == "" || s[0] != '[' || s[|s| - 1] != ']' then None
    else
      var inner := s[1..|s| - 1];
      var idx := IndexOf(inner, ':');
      if idx == |inner| || idx == 0 then None
      else if '0' <= inner[0] <= '9' then None
      else Some(Tag(inner[..idx], inner[idx + 1..], line))
  }

  /** A line with what the header parser finds in it. */
  datatype Line = Line(raw: string, tag: Option<Tag>, blank: bool)

  function Analyze(raw: string): (l: Line)
    ensures WellTagged(l)
  {
    Line(raw, ParseTagLine(raw), TrimSpace(raw) == "")
  }

  predicate WellTagged(l: Line) {
    l.tag.Some? ==> l.tag.value.key != "" && l.tag.value.raw == l.raw
  }

  function Analyzed(raws: seq<string>): (lines: seq<Line>)
    ensures |lines| == |raws|
  {
    seq(|raws|, i requires 0 <= i < |raws| => Analyze(raws[i]))
  }

  predicate InHeader(l: Line) {
    l.tag.Some? || l.blank
  }

  /** The header entry of a line; a blank line is an entry without a key. */
  function Entry(l: Line): Tag {
    if l.tag.Some? then l.tag.value else Tag("", "", l.raw)
  }

  function Entries(lines: seq<Line>): (tags: seq<Tag>)
    ensures |tags| == |lines|
    ensures forall i :: 0 <= i < |lines| ==> tags[i] == Entry(lines[i])
  {
    seq(|lines|, i requires 0 <= i < |lines| => Entry(lines[i]))
  }

  function Raws(lines: seq<Line>): (raws: seq<string>)
    ensures |raws| == |lines|
    ensures forall i :: 0 <= i < |lines| ==> raws[i] == lines[i].raw
  {
    seq(|lines|, i requires 0 <= i < |lines| => lines[i].raw)
  }

  /** The header is the longest leading run of tags and blank lines. */
  function HeaderLength(lines: seq<Line>): (h: nat)
    ensures h <= |lines|
    ensures forall i :: 0 <= i < h ==> InHeader(lines[i])
    ensures h < |lines| ==> !InHeader(lines[h])
  {
    if lines == [] || !InHeader(lines[0]) then 0 else 1 + HeaderLength(lines[1..])
  }

  lemma HeaderLengthIs(lines: seq<Line>, h: nat)
    requires h <= |lines| && (forall i :: 0 <= i < h ==> InHeader(lines[i]))
    requires h < |lines| ==> !InHeader(lines[h])
    ensures HeaderLength(lines) == h
  {
    assert HeaderLength(lines) >= h && HeaderLength(lines) <= h;
  }

  function Header(lines: seq<Line>): seq<Line> {
    lines[..HeaderLength(lines)]
  }

  /** The header loop, over lines on which parseTagLine and TrimSpace have been evaluated. */
  method ParseLRCHeader(lines: seq<Line>) returns (tags: seq<Tag>, lyrics: seq<string>)
    ensures tags == Entries(Header(lines)) && lyrics == Raws(lines[HeaderLength(lines)..])
  {
    tags, lyrics := [], [];
    var inHeader := true;
    ghost var h := HeaderLength(lines);
    for i := 0 to |lines|
      invariant inHeader ==> i <= h && tags == Entries(lines[..i]) && lyrics == []
      invariant !inHeader ==> h < i && tags == Entries(lines[..h]) && lyrics == Raws(lines[h..i])
    {
      var line := lines[i];
      if inHeader {
        if line.tag.Some? {
          tags := tags + [line.tag.value];
          assert tags == Entries(lines[..i + 1]);
          continue;
        }
        if line.blank && |lyrics| == 0 {
          tags := tags + [Tag("", "", line.raw)];
          assert tags == Entries(lines[..i + 1]);
          continue;
        }
        inHeader := false;
      }
      lyrics := lyrics + [line.raw];
    }
  }

  // ----- Candidates -----

  datatype ProvenanceTags = ProvenanceTags(source: string, fetched: string, isrc: string, mbid: string)

  function SanitizeTagValue(v: string): (s: string)
    ensures forall c :: c in s <==> c in v && c != ']' && c != '\r' && c != '\n'
  {
    if v == "" then ""
    else if v[0] == ']' || v[0] == '\r' || v[0] == '\n' then SanitizeTagValue(v[1..])
    else [v[0]] + SanitizeTagValue(v[1..])
  }

  datatype Candidate = Candidate(key: string, value: string)

  function Candidates(pt: ProvenanceTags): seq<Candidate> {
    [Candidate("source", SanitizeTagValue(pt.source)), Candidate("fetched", SanitizeTagValue(pt.fetched)),
     Candidate("isrc", SanitizeTagValue(pt.isrc)), Candidate("mbid", SanitizeTagValue(pt.mbid))]
  }

  /** strings.ToLower as far as it can produce an ASCII letter: A-Z, the dotted capital I and the
      Kelvin sign. Other letters cannot make a key equal to a candidate's. */
  function LowerChar(c: char): char {
    if 'A' <= c <= 'Z' then (c as int + 32) as char
    else if c == '\U{0130}' then 'i'
    else if c == '\U{212A}' then 'k'
    else c
  }

  function Lower(s: string): (t: string)
    ensures |t| == |s|
  {
    seq(|s|, i requires 0 <= i < |s| => LowerChar(s[i]))
  }

  /** Some header line carries the key, letter case aside. */
  predicate HasKey(header: seq<Line>, key: string) {
    exists i :: 0 <= i < |header| && header[i].tag.Some? && Lower(header[i].tag.value.key) == key
  }

  function RawTag(c: Candidate): string {
    "[" + c.key + ":" + c.value + "]"
  }

  /** Raw lines of the candidates to add: non-empty and not yet present. */
  function ToAdd(cs: seq<Candidate>, header: seq<Line>, n: nat): seq<string>
    requires n <= |cs|
  {
    if n == 0 then []
    else if cs[n - 1].value != "" && !HasKey(header, cs[n - 1].key) then ToAdd(cs, header, n - 1) + [RawTag(cs[n - 1])]
    else ToAdd(cs, header, n - 1)
  }

  /** How many non-empty candidates are already present. */
  function SkipCount(cs: seq<Candidate>, header: seq<Line>, n: nat): nat
    requires n <= |cs|
  {
    if n == 0 then 0
    else SkipCount(cs, header, n - 1) + (if cs[n - 1].value != "" && HasKey(header, cs[n - 1].key) then 1 else 0)
  }

  function NonEmpty(cs: seq<Candidate>, n: nat): nat
    requires n <= |cs|
  {
    if n == 0 then 0 else NonEmpty(cs, n - 1) + (if cs[n - 1].value != "" then 1 else 0)
  }

  /** The first header line that is no tag, or the end of the header. */
  function FirstBlank(header: seq<Line>): (k: nat)
    ensures k <= |header|
    ensures forall i :: 0 <= i < k ==> header[i].tag.Some?
    ensures k < |header| ==> header[k].tag.None?
  {
    if header == [] || header[0].tag.None? then 0 else 1 + FirstBlank(header[1..])
  }

  /** The rewritten file, line by line: the new tags stand before the first blank header line. */
  function OutLines(lines: seq<Line>, add: seq<string>): seq<string> {
    var k := FirstBlank(Header(lines));
    Raws(lines[..k]) + add + Raws(lines[k..])
  }

  function Eol(text: string): string {
    if HasCRLF(text) then "\r\n" else "\n"
  }

  // ----- The whole call -----

  ghost predicate AllWellTagged(lines: seq<Line>) {
    forall i :: 0 <= i < |lines| ==> WellTagged(lines[i])
  }

  lemma AnalyzedWellTagged(raws: seq<string>)
    ensures AllWellTagged(Analyzed(raws))
  {
  }

  method CollectKeys(tags: seq<Tag>, ghost header: seq<Line>) returns (existing: set<string>)
    requires tags == Entries(header) && AllWellTagged(header)
    ensures forall k :: k in existing <==> HasKey(header, k)
  {
    existing := {};
    for i := 0 to |tags|
      invariant forall k :: k in existing <==> HasKey(header[..i], k)
    {
      assert WellTagged(header[i]);
      HasKeyStep(header, i);
      if tags[i].key != "" {
        existing := existing + {Lower(tags[i].key)};
      }
    }
    assert header[..|tags|] == header;
  }

  lemma HasKeyStep(header: seq<Line>, i: nat)
    requires i < |header|
    ensures forall k :: HasKey(header[..i + 1], k) <==>
              HasKey(header[..i], k) || (header[i].tag.Some? && Lower(header[i].tag.value.key) == k)
  {
    forall k
      ensures HasKey(header[..i + 1], k) <==>
                HasKey(header[..i], k) || (header[i].tag.Some? && Lower(header[i].tag.value.key) == k)
    {
      var a, b := header[..i], header[..i + 1];
      assert forall j :: 0 <= j < i ==> a[j] == b[j];
      assert b[i] == header[i];
    }
  }

  /** The file's text after the call, and what it reports. */
  function Injected(text: string, pt: ProvenanceTags): (string, nat, nat) {
    var lines := Analyzed(ScanLines(text));
    var add := ToAdd(Candidates(pt), Header(lines), 4);
    var out := OutLines(lines, add);
    (if add == [] then text else WrittenLines(out, Eol(text), EndsWith(text, '\n'), |out|),
     |add|,
     SkipCount(Candidates(pt), Header(lines), 4))
  }

  method InjectProvenance(text: string, pt: ProvenanceTags) returns (out: string, injected: nat, skipped: nat)
    ensures (out, injected, skipped) == Injected(text, pt)
  {
    var eol := Eol(text);
    var hasTrailingNL := EndsWith(text, '\n');
    var lines := Analyzed(ScanLines(text));
    AnalyzedWellTagged(ScanLines(text));
    var tags, lyrics := ParseLRCHeader(lines);
    var existing := CollectKeys(tags, Header(lines));
    var toAdd;
    toAdd, skipped := Choose(Candidates(pt), existing, Header(lines));
    injected := |toAdd|;
    if injected == 0 {
      return text, 0, skipped;
    }
    var outLines := Insert(lines, tags, lyrics, toAdd);
    out := WriteAll(outLines, eol, hasTrailingNL);
  }

  /** The candidates loop. */
  method Choose(cs: seq<Candidate>, existing: set<string>, ghost header: seq<Line>)
    returns (toAdd: seq<string>, skipped: nat)
    requires forall k :: k in existing <==> HasKey(header, k)
    ensures toAdd == ToAdd(cs, header, |cs|) && skipped == SkipCount(cs, header, |cs|)
  {
    toAdd, skipped := [], 0;
    for i := 0 to |cs|
      invariant toAdd == ToAdd(cs, header, i) && skipped == SkipCount(cs, header, i)
    {
      if cs[i].value == "" {
        continue;
      }
      if cs[i].key in existing {
        skipped := skipped + 1;
        continue;
      }
      toAdd := toAdd + [RawTag(cs[i])];
    }
  }

  /** Find the first blank header entry and splice the new tags in before it. */
  method Insert(ghost lines: seq<Line>, tags: seq<Tag>, lyrics: seq<string>, toAdd: seq<string>)
    returns (outLines: seq<string>)
    requires tags == Entries(Header(lines)) && lyrics == Raws(lines[HeaderLength(lines)..]) && AllWellTagged(lines)
    ensures outLines == OutLines(lines, toAdd)
  {
    ghost var header := Header(lines);
    var insertIdx := |tags|;
    for i := 0 to |tags|
      invariant insertIdx == |tags| == |header|
      invariant forall j :: 0 <= j < i ==> header[j].tag.Some?
    {
      assert WellTagged(header[i]) && tags[i] == Entry(header[i]);
      if tags[i].key == "" {
        insertIdx := i;
        break;
      }
    }
    assert insertIdx == FirstBlank(header);
    var raws := RawsOf(tags, header);
    SplitRaws(lines, HeaderLength(lines), insertIdx);
    outLines := raws[..insertIdx] + toAdd + (raws[insertIdx..] + lyrics);
  }

  lemma SplitRaws(lines: seq<Line>, h: nat, k: nat)
    requires k <= h <= |lines|
    ensures Raws(lines[..h])[..k] == Raws(lines[..k])
    ensures Raws(lines[..h])[k..] + Raws(lines[h..]) == Raws(lines[k..])
  {
  }

  method RawsOf(tags: seq<Tag>, ghost header: seq<Line>) returns (raws: seq<string>)
    requires tags == Entries(header) && AllWellTagged(header)
    ensures raws == Raws(header)
  {
    raws := [];
    for i := 0 to |tags|
      invariant raws == Raws(header)[..i]
    {
      assert WellTagged(header[i]);
      raws := raws + [tags[i].raw];
    }
  }

  method WriteAll(lines: seq<string>, eol: string, trailing: bool) returns (buf: string)
    ensures buf == WrittenLines(lines, eol, trailing, |lines|)
  {
    buf := "";
    for i := 0 to |lines|
      invariant buf == WrittenLines(lines, eol, trailing, i)
    {
      var isLast := i == |lines| - 1;
      if isLast && !trailing {
        buf := buf + lines[i];
      } else {
        buf := buf + (lines[i] + eol);
      }
    }
  }
}
