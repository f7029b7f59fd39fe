/** What provenance injection promises about the rewritten file (internal/lyrics/parser.go). */
module ProvenanceLaws {
  import opened Prelude
  import opened Text
  import opened Provenance
  import opened ScanLaws

  // ----- The added tags -----

  predicate PlainKey(key: string) {
    && key != "" && ':' !in key && !('0' <= key[0] <= '9') && Lower(key) == key
    && '\n' !in key
  }

  lemma CandidateKeys(pt: ProvenanceTags)
    ensures forall i :: 0 <= i < 4 ==> PlainKey(Candidates(pt)[i].key)
    ensures forall i :: 0 <= i < 4 ==> '\n' !in Candidates(pt)[i].value
  {
    assert Lower("source") == "source" && Lower("fetched") == "fetched" && Lower("isrc") == "isrc"
      && Lower("mbid") == "mbid";
  }

  /** A tag written for a candidate reads back as that tag. */
  lemma RawTagParses(c: Candidate)
    requires PlainKey(c.key)
    ensures ParseTagLine(RawTag(c)) == Some(Tag(c.key, c.value, RawTag(c)))
  {
    var raw := RawTag(c);
    assert raw[0] == '[' && raw[|raw| - 1] == ']';
    TrimIsIdentity(raw);
    var inner := raw[1..|raw| - 1];
    assert inner == c.key + [':'] + c.value;
    IndexAfter(c.key, ':', c.value);
    assert inner[..|c.key|] == c.key && inner[|c.key| + 1..] == c.value;
  }

  /** add[j] is the raw tag of some candidate. */
  lemma {:induction false} AddedFrom(cs: seq<Candidate>, header: seq<Line>, n: nat, j: nat) returns (i: nat)
    requires n <= |cs| && j < |ToAdd(cs, header, n)|
    ensures i < n && ToAdd(cs, header, n)[j] == RawTag(cs[i])
  {
    if j < |ToAdd(cs, header, n - 1)| {
      i := AddedFrom(cs, header, n - 1, j);
    } else {
      i := n - 1;
    }
  }

  lemma {:induction false} MissingIsAdded(cs: seq<Candidate>, header: seq<Line>, n: nat, i: nat)
    requires i < n <= |cs| && cs[i].value != "" && !HasKey(header, cs[i].key)
    ensures RawTag(cs[i]) in ToAdd(cs, header, n)
  {
    if i < n - 1 { MissingIsAdded(cs, header, n - 1, i); }
  }

  // ----- The rewritten header -----

  /** The rewritten file as analysed lines. */
  function Spliced(lines: seq<Line>, add: seq<Line>): seq<Line> {
    var k := FirstBlank(Header(lines));
    lines[..k] + add + lines[k..]
  }

  lemma {:induction false} SplicedHeader(lines: seq<Line>, add: seq<Line>)
    requires forall j :: 0 <= j < |add| ==> add[j].tag.Some?
    ensures HeaderLength(Spliced(lines, add)) == HeaderLength(lines) + |add|
  {
    var h, k := HeaderLength(lines), FirstBlank(Header(lines));
    var out := Spliced(lines, add);
    assert forall i :: 0 <= i < h ==> InHeader(Header(lines)[i]);
    forall i | 0 <= i < h + |add|
      ensures InHeader(out[i])
    {
      if i < k { assert out[i] == lines[i]; }
      else if i < k + |add| { assert out[i] == add[i - k]; }
      else { assert out[i] == lines[i - |add|]; }
    }
    if h < |lines| { assert out[h + |add|] == lines[h]; }
    HeaderLengthIs(out, h + |add|);
  }

  lemma SplicedKeys(lines: seq<Line>, add: seq<Line>, key: string)
    requires forall j :: 0 <= j < |add| ==> add[j].tag.Some?
    ensures HasKey(Header(lines), key) ==> HasKey(Header(Spliced(lines, add)), key)
    ensures HasKey(add, key) ==> HasKey(Header(Spliced(lines, add)), key)
  {
    SplicedHeader(lines, add);
    var k, header := FirstBlank(Header(lines)), Header(Spliced(lines, add));
    if HasKey(Header(lines), key) {
      var i :| 0 <= i < |Header(lines)| && Header(lines)[i].tag.Some? && Lower(Header(lines)[i].tag.value.key) == key;
      assert header[if i < k then i else i + |add|] == Header(lines)[i];
    }
    if HasKey(add, key) {
      var j :| 0 <= j < |add| && add[j].tag.Some? && Lower(add[j].tag.value.key) == key;
      assert header[k + j] == add[j];
    }
  }

  lemma {:induction false} NothingMissing(cs: seq<Candidate>, header: seq<Line>, n: nat)
    requires n <= |cs| && forall i :: 0 <= i < |cs| && cs[i].value != "" ==> HasKey(header, cs[i].key)
    ensures ToAdd(cs, header, n) == [] && SkipCount(cs, header, n) == NonEmpty(cs, n)
  {
    if n > 0 { NothingMissing(cs, header, n - 1); }
  }

  // ----- What the rewrite makes of the original lines -----

  lemma RawsOfAnalyzed(raws: seq<string>)
    ensures Raws(Analyzed(raws)) == raws
  {
  }

  lemma AnalyzedInjective(a: seq<string>, b: seq<string>)
    ensures Analyzed(a) == Analyzed(b) <==> a == b
  {
    RawsOfAnalyzed(a);
    RawsOfAnalyzed(b);
  }

  lemma AnalyzedSplice(raws: seq<string>, add: seq<string>, k: nat)
    requires k <= |raws|
    ensures Analyzed(raws[..k] + add + raws[k..]) == Analyzed(raws)[..k] + Analyzed(add) + Analyzed(raws)[k..]
  {
  }

  lemma OutLinesSplice(lines: seq<Line>, add: seq<string>)
    ensures var k := FirstBlank(Header(lines));
      OutLines(lines, add) == Raws(lines)[..k] + add + Raws(lines)[k..]
  {
  }

  predicate CleanTag(raw: string) {
    raw != "" && '\n' !in raw && !EndsWith(raw, '\r')
  }

  /** Every added line reads back as a tag. */
  lemma AddedAreTags(pt: ProvenanceTags, header: seq<Line>, j: nat)
    requires j < |ToAdd(Candidates(pt), header, 4)|
    ensures CleanTag(ToAdd(Candidates(pt), header, 4)[j])
    ensures Analyzed(ToAdd(Candidates(pt), header, 4))[j].tag.Some?
  {
    var cs := Candidates(pt);
    CandidateKeys(pt);
    var i := AddedFrom(cs, header, 4, j);
    RawTagParses(cs[i]);
  }

  lemma ScannedSurvive(text: string, j: nat)
    requires j < |ScanLines(text)| && (j < |ScanLines(text)| - 1 || !EndsWith(text, '\r'))
    ensures Survives(ScanLines(text)[j], Eol(text))
  {
    if !HasCRLF(text) { ScannedEndInNoCR(text, j); }
  }

  lemma ScanIsNewlineFree(text: string)
    ensures NewlineFree(ScanLines(text))
  {
    forall i | 0 <= i < |ScanLines(text)|
      ensures '\n' !in ScanLines(text)[i]
    {
      ScannedHaveNoNewline(text, i);
    }
  }

  /** The original lines as they come back from a rewrite that inserts at k: only the last can change,
      which may lose a carriage return or, when it is empty, disappear. */
  function SettledRaws(raws: seq<string>, k: nat, eol: string, trailing: bool): (s: seq<string>)
    requires k <= |raws|
    ensures |s| >= k
  {
    if raws == [] then []
    else
      var n, last := |raws| - 1, raws[|raws| - 1];
      raws[..n] + (if k <= n then LastKept(last, eol, trailing) else [Kept(last, eol)])
  }

  lemma InitRescanned(init: seq<string>, last: string, eol: string, trailing: bool)
    requires IsEol(eol) && forall i :: 0 <= i < |init| ==> Survives(init[i], eol)
    ensures Rescanned(init + [last], eol, trailing) == init + LastKept(last, eol, trailing)
  {
    assert (init + [last])[..|init|] == init;
    AllSurvive(init, eol);
  }

  lemma InsideSurvives(raws: seq<string>, add: seq<string>, k: nat, n: nat, eol: string)
    requires k <= n <= |raws| && forall j :: 0 <= j < |add| ==> CleanTag(add[j])
    requires forall i :: 0 <= i < n ==> Survives(raws[i], eol)
    ensures forall i :: 0 <= i < n + |add| ==> Survives((raws[..k] + add + raws[k..n])[i], eol)
  {
    var init := raws[..k] + add + raws[k..n];
    forall i | 0 <= i < n + |add|
      ensures Survives(init[i], eol)
    {
      assert init[i] == if i < k then raws[i] else if i < k + |add| then add[i - k] else raws[i - |add|];
    }
  }

  lemma InsideRescanned(raws: seq<string>, add: seq<string>, k: nat, eol: string, trailing: bool)
    requires IsEol(eol) && k < |raws| && forall j :: 0 <= j < |add| ==> CleanTag(add[j])
    requires forall i :: 0 <= i < |raws| - 1 ==> Survives(raws[i], eol)
    ensures var s := SettledRaws(raws, k, eol, trailing);
      Rescanned(raws[..k] + add + raws[k..], eol, trailing) == s[..k] + add + s[k..]
  {
    var n := |raws| - 1;
    InsideSurvives(raws, add, k, n, eol);
    InitRescanned(raws[..k] + add + raws[k..n], raws[n], eol, trailing);
    assert raws[..k] + add + raws[k..] == raws[..k] + add + raws[k..n] + [raws[n]];
    InsideSplit(raws, add, k, LastKept(raws[n], eol, trailing));
  }

  lemma InsideSplit(raws: seq<string>, add: seq<string>, k: nat, tail: seq<string>)
    requires k < |raws|
    ensures var n := |raws| - 1; var s := raws[..n] + tail;
      (raws[..k] + add + raws[k..n]) + tail == s[..k] + add + s[k..]
  {
  }

  lemma AtEndRescanned(raws: seq<string>, add: seq<string>, eol: string, trailing: bool)
    requires IsEol(eol) && raws != [] && add != [] && forall j :: 0 <= j < |add| ==> CleanTag(add[j])
    requires forall i :: 0 <= i < |raws| - 1 ==> Survives(raws[i], eol)
    ensures Rescanned(raws + add, eol, trailing) == SettledRaws(raws, |raws|, eol, trailing) + add
  {
    var n, m := |raws| - 1, |add| - 1;
    AllSurvive(raws[..n], eol);
    AllSurvive(add[..m], eol);
    LastSurvivesIff(add[m], eol, trailing);
    KeptAllAcross(raws, add[..m], eol);
    InitOfSum(raws, add);
    InitOfSum(raws[..n] + [Kept(raws[n], eol)], add);
  }

  lemma InitOfSum(raws: seq<string>, add: seq<string>)
    requires add != []
    ensures var m := |add| - 1;
      && (raws + add)[..|raws| + m] == raws + add[..m] && (raws + add)[|raws| + m] == add[m]
      && raws + add[..m] + [add[m]] == raws + add
  {
  }

  lemma KeptAllAcross(raws: seq<string>, more: seq<string>, eol: string)
    requires raws != [] && KeptAll(more, eol) == more && KeptAll(raws[..|raws| - 1], eol) == raws[..|raws| - 1]
    ensures KeptAll(raws + more, eol) == raws[..|raws| - 1] + [Kept(raws[|raws| - 1], eol)] + more
  {
    var n := |raws| - 1;
    forall i | 0 <= i < |raws + more|
      ensures Kept((raws + more)[i], eol) == (raws[..n] + [Kept(raws[n], eol)] + more)[i]
    {
      if i < n {
        assert (raws + more)[i] == raws[..n][i] == KeptAll(raws[..n], eol)[i];
      } else if i > n {
        assert (raws + more)[i] == more[i - n - 1] == KeptAll(more, eol)[i - n - 1];
      }
    }
  }

  lemma SplicedRescanned(raws: seq<string>, add: seq<string>, k: nat, eol: string, trailing: bool)
    requires IsEol(eol) && k <= |raws| && add != [] && forall j :: 0 <= j < |add| ==> CleanTag(add[j])
    requires forall i :: 0 <= i < |raws| - 1 ==> Survives(raws[i], eol)
    ensures var s := SettledRaws(raws, k, eol, trailing);
      Rescanned(raws[..k] + add + raws[k..], eol, trailing) == s[..k] + add + s[k..]
  {
    if k < |raws| {
      InsideRescanned(raws, add, k, eol, trailing);
    } else {
      var s := SettledRaws(raws, k, eol, trailing);
      assert raws[..k] + add + raws[k..] == raws + add && s[..k] + add + s[k..] == s + add;
      if raws != [] { AtEndRescanned(raws, add, eol, trailing); } else { AddedRescanned(add, eol, trailing); }
    }
  }

  lemma AddedRescanned(add: seq<string>, eol: string, trailing: bool)
    requires IsEol(eol) && add != [] && forall j :: 0 <= j < |add| ==> CleanTag(add[j])
    ensures Rescanned([] + add, eol, trailing) == [] + add
  {
    var m := |add| - 1;
    assert [] + add == add == add[..m] + [add[m]];
    AllSurvive(add[..m], eol);
    LastSurvivesIff(add[m], eol, trailing);
  }

  /** A condition on the file that its reader can check: if it ends in a carriage return, what is left
      of its last line after one is stripped must survive, written last or, when the new tags come
      after it, with a newline. */
  predicate SafeEnding(text: string, k: nat) {
    var raws := ScanLines(text);
    EndsWith(text, '\r') && raws != [] ==>
      var last := raws[|raws| - 1];
      if k < |raws| then LastSurvives(last, Eol(text), false) else Survives(last, Eol(text))
  }

  lemma SettledUnchangedIff(text: string, k: nat)
    requires k <= |ScanLines(text)|
    ensures SettledRaws(ScanLines(text), k, Eol(text), EndsWith(text, '\n')) == ScanLines(text) <==> SafeEnding(text, k)
  {
    var raws, eol, trailing := ScanLines(text), Eol(text), EndsWith(text, '\n');
    if raws != [] {
      var n, last := |raws| - 1, raws[|raws| - 1];
      if !EndsWith(text, '\r') { ScannedSurvive(text, n); }
      if text != "" && !trailing { UnterminatedLast(text); }
      SurvivesIff(last, eol);
      LastSurvivesIff(last, eol, trailing);
      assert raws == raws[..n] + [last];
      AppendDecides(raws[..n], last, raws[..n], if k <= n then LastKept(last, eol, trailing) else [Kept(last, eol)]);
    }
  }

  // ----- The same for analysed lines -----

  /** The same tag or the same blank, whatever the raw text. */
  predicate Alike(a: Line, b: Line) {
    && a.blank == b.blank && a.tag.Some? == b.tag.Some?
    && (a.tag.Some? ==> a.tag.value.key == b.tag.value.key && a.tag.value.value == b.tag.value.value)
  }

  lemma DropCRIsAlike(raw: string)
    ensures Alike(Analyze(raw), Analyze(DropCR(raw)))
  {
    if EndsWith(raw, '\r') {
      assert raw == raw[..|raw| - 1] + ['\r'];
      TrimBeforeCR(raw[..|raw| - 1]);
    }
  }

  /** `b` is `a`, except that the last line may be a look-alike or, if it is blank, missing. */
  ghost predicate Settles(a: seq<Line>, b: seq<Line>) {
    a == b ||
    (a != [] &&
       var n := |a| - 1;
       if |b| == n then b == a[..n] && a[n].blank && a[n].tag.None?
       else |b| == n + 1 && b[..n] == a[..n] && Alike(a[n], b[n]) && b[n] != a[n])
  }

  lemma TextSettles(raws: seq<string>, k: nat, eol: string, trailing: bool)
    requires k <= |raws|
    ensures Settles(Analyzed(raws), Analyzed(SettledRaws(raws, k, eol, trailing)))
  {
    if raws != [] {
      var n, s := |raws| - 1, SettledRaws(raws, k, eol, trailing);
      assert s[..n] == raws[..n];
      LastSettles(raws, s);
    }
  }

  lemma LastSettles(raws: seq<string>, s: seq<string>)
    requires raws != [] && |raws| - 1 <= |s| <= |raws| && s[..|raws| - 1] == raws[..|raws| - 1]
    requires if |s| < |raws| then raws[|raws| - 1] == ""
             else s[|raws| - 1] in [raws[|raws| - 1], DropCR(raws[|raws| - 1])]
    ensures Settles(Analyzed(raws), Analyzed(s))
  {
    var n := |raws| - 1;
    DropCRIsAlike(raws[n]);
    EmptyIsBlank();
    assert Analyzed(s)[..n] == Analyzed(raws)[..n] by {
      forall i | 0 <= i < n
        ensures Analyzed(s)[i] == Analyzed(raws)[i]
      {
        assert s[i] == s[..n][i] == raws[i];
      }
    }
    if |s| == n + 1 && s[n] == raws[n] {
      assert s == s[..n] + [s[n]] && raws == raws[..n] + [raws[n]];
    }
  }

  lemma EmptyIsBlank()
    ensures Analyze("").blank && Analyze("").tag.None?
  {
  }

  /** What settling means position by position. */
  ghost predicate Follows(a: seq<Line>, b: seq<Line>) {
    && |a| - 1 <= |b| <= |a|
    && (forall i :: 0 <= i < |b| ==> InHeader(b[i]) == InHeader(a[i]))
    && (|b| < |a| ==> InHeader(a[|b|]))
  }

  lemma SettlesFollows(a: seq<Line>, b: seq<Line>)
    requires Settles(a, b)
    ensures Follows(a, b)
    ensures forall i :: 0 <= i < |b| ==> b[i].tag.Some? == a[i].tag.Some?
    ensures forall i :: 0 <= i < |b| && a[i].tag.Some? ==> b[i].tag.value.key == a[i].tag.value.key
    ensures |b| < |a| ==> a[|b|].tag.None?
  {
    forall i | 0 <= i < |b|
      ensures Alike(a[i], b[i])
    {
      if i < |a| - 1 { assert a[i] == a[..|a| - 1][i] == b[i]; }
    }
  }

  lemma FollowsHeader(a: seq<Line>, b: seq<Line>, h: nat)
    requires Follows(a, b) && h <= |a| && (forall i :: 0 <= i < h ==> InHeader(a[i])) && (h < |a| ==> !InHeader(a[h]))
    ensures HeaderLength(b) == if h == |a| then |b| else h
  {
    HeaderLengthIs(b, if h == |a| then |b| else h);
  }

  lemma SettledHeader(a: seq<Line>, b: seq<Line>)
    requires Settles(a, b)
    ensures HeaderLength(b) == if HeaderLength(a) == |a| then |b| else HeaderLength(a)
  {
    SettlesFollows(a, b);
    FollowsHeader(a, b, HeaderLength(a));
  }

  lemma FirstBlankIs(header: seq<Line>, k: nat)
    requires k <= |header| && (forall i :: 0 <= i < k ==> header[i].tag.Some?) && (k < |header| ==> header[k].tag.None?)
    ensures FirstBlank(header) == k
  {
    assert FirstBlank(header) >= k && FirstBlank(header) <= k;
  }

  lemma SettledFirstBlank(a: seq<Line>, b: seq<Line>)
    requires Settles(a, b)
    ensures FirstBlank(Header(b)) == FirstBlank(Header(a))
  {
    SettledHeader(a, b);
    SettlesFollows(a, b);
    FirstBlankFollows(Header(a), Header(b), FirstBlank(Header(a)));
  }

  lemma FirstBlankFollows(h: seq<Line>, g: seq<Line>, k: nat)
    requires k <= |h| && (forall i :: 0 <= i < k ==> h[i].tag.Some?) && (k < |h| ==> h[k].tag.None?)
    requires |g| <= |h| <= |g| + 1 && (|g| < |h| ==> h[|g|].tag.None?)
    requires forall i :: 0 <= i < |g| ==> g[i].tag.Some? == h[i].tag.Some?
    ensures FirstBlank(g) == k
  {
    FirstBlankIs(g, k);
  }

  /** A look-alike carries the same key, and a blank line carries none. */
  lemma SettledKeys(a: seq<Line>, b: seq<Line>, key: string)
    requires Settles(a, b) && HasKey(Header(a), key)
    ensures HasKey(Header(b), key)
  {
    SettledHeader(a, b);
    SettlesFollows(a, b);
    KeysFollow(Header(a), Header(b), key);
  }

  lemma KeysFollow(h: seq<Line>, g: seq<Line>, key: string)
    requires |g| <= |h| <= |g| + 1 && (|g| < |h| ==> h[|g|].tag.None?)
    requires forall i :: 0 <= i < |g| ==> g[i].tag.Some? == h[i].tag.Some?
    requires forall i :: 0 <= i < |g| && h[i].tag.Some? ==> g[i].tag.value.key == h[i].tag.value.key
    requires HasKey(h, key)
    ensures HasKey(g, key)
  {
    var i :| 0 <= i < |h| && h[i].tag.Some? && Lower(h[i].tag.value.key) == key;
    assert i < |g| && g[i].tag.value.key == h[i].tag.value.key;
  }

  // ----- Main results -----

  /** The lines of a file, the lines an injection adds to it, and the lines of the rewritten file. */
  function Before(text: string): seq<Line> {
    Analyzed(ScanLines(text))
  }

  function Added(text: string, pt: ProvenanceTags): seq<string> {
    ToAdd(Candidates(pt), Header(Before(text)), 4)
  }

  function After(text: string, pt: ProvenanceTags): seq<Line> {
    Analyzed(ScanLines(Injected(text, pt).0))
  }

  /** The file's ending is safe for an injection. */
  predicate Safe(text: string) {
    SafeEnding(text, FirstBlank(Header(Before(text))))
  }

  function Settled(text: string): seq<string> {
    SettledRaws(ScanLines(text), FirstBlank(Header(Before(text))), Eol(text), EndsWith(text, '\n'))
  }

  lemma SettledSettles(text: string)
    ensures Settles(Before(text), Analyzed(Settled(text)))
    ensures Analyzed(Settled(text)) == Before(text) <==> Safe(text)
  {
    var k := FirstBlank(Header(Before(text)));
    TextSettles(ScanLines(text), k, Eol(text), EndsWith(text, '\n'));
    SettledUnchangedIff(text, k);
    AnalyzedInjective(Settled(text), ScanLines(text));
  }

  lemma SplicedScans(text: string, add: seq<string>, k: nat)
    requires k <= |ScanLines(text)| && add != [] && forall j :: 0 <= j < |add| ==> CleanTag(add[j])
    ensures var out, s := ScanLines(text)[..k] + add + ScanLines(text)[k..],
                          SettledRaws(ScanLines(text), k, Eol(text), EndsWith(text, '\n'));
      ScanLines(WrittenLines(out, Eol(text), EndsWith(text, '\n'), |out|)) == s[..k] + add + s[k..]
  {
    var raws := ScanLines(text);
    ScanIsNewlineFree(text);
    forall i | 0 <= i < |raws| - 1
      ensures Survives(raws[i], Eol(text))
    {
      ScannedSurvive(text, i);
    }
    ScanWritten(raws[..k] + add + raws[k..], Eol(text), EndsWith(text, '\n'));
    SplicedRescanned(raws, add, k, Eol(text), EndsWith(text, '\n'));
  }

  /** Whatever the file ends in: the rewritten file scans to the settled lines with the new tags
      spliced in before the first blank line of the header. */
  lemma Rewritten(text: string, pt: ProvenanceTags)
    ensures After(text, pt) == if Added(text, pt) == [] then Before(text)
                               else Spliced(Analyzed(Settled(text)), Analyzed(Added(text, pt)))
  {
    var lines, add := Before(text), Added(text, pt);
    var k := FirstBlank(Header(lines));
    if add != [] {
      forall j | 0 <= j < |add|
        ensures CleanTag(add[j])
      {
        AddedAreTags(pt, Header(lines), j);
      }
      RawsOfAnalyzed(ScanLines(text));
      OutLinesSplice(lines, add);
      SplicedScans(text, add, k);
      AnalyzedSplice(Settled(text), add, k);
      SettledSettles(text);
      SettledFirstBlank(lines, Analyzed(Settled(text)));
    }
  }

  lemma AllAddedAreTags(text: string, pt: ProvenanceTags)
    ensures forall j :: 0 <= j < |Analyzed(Added(text, pt))| ==> Analyzed(Added(text, pt))[j].tag.Some?
  {
    forall j | 0 <= j < |Analyzed(Added(text, pt))|
      ensures Analyzed(Added(text, pt))[j].tag.Some?
    {
      AddedAreTags(pt, Header(Before(text)), j);
    }
  }

  lemma SplicedInjective(a: seq<Line>, b: seq<Line>, add: seq<Line>)
    requires Settles(a, b)
    ensures Spliced(a, add) == Spliced(b, add) <==> a == b
  {
    SettledFirstBlank(a, b);
    if Spliced(a, add) == Spliced(b, add) { CutEqual(a, b, add, FirstBlank(Header(a))); }
  }

  /** Scanning the rewritten file yields the original lines with the new tags spliced in exactly when
      the file's ending is safe. */
  lemma RewriteScansBack(text: string, pt: ProvenanceTags)
    requires Added(text, pt) != []
    ensures After(text, pt) == Spliced(Before(text), Analyzed(Added(text, pt))) <==> Safe(text)
  {
    Rewritten(text, pt);
    SettledSettles(text);
    SplicedInjective(Before(text), Analyzed(Settled(text)), Analyzed(Added(text, pt)));
  }

  /** Carriage returns only inside CRLF: always safe. */
  lemma PlainFilesAreSafe(text: string)
    requires !EndsWith(text, '\r')
    ensures Safe(text)
  {
  }

  lemma SplicedLyrics(lines: seq<Line>, add: seq<Line>)
    requires forall j :: 0 <= j < |add| ==> add[j].tag.Some?
    ensures Spliced(lines, add)[HeaderLength(Spliced(lines, add))..] == lines[HeaderLength(lines)..]
  {
    SplicedHeader(lines, add);
    var k := FirstBlank(Header(lines));
    assert Spliced(lines, add)[HeaderLength(lines) + |add|..] == lines[HeaderLength(lines)..];
  }

  lemma TailsDiffer(a: seq<Line>, b: seq<Line>, h: nat)
    requires Settles(a, b) && a != b && h < |a| && h <= |b|
    ensures a[h..] != b[h..]
  {
    var n := |a| - 1;
    if |b| == |a| { assert a[h..][n - h] == a[n] && b[h..][n - h] == b[n]; }
  }

  lemma SettledLyrics(a: seq<Line>, b: seq<Line>)
    requires Settles(a, b)
    ensures a[HeaderLength(a)..] == b[HeaderLength(b)..] <==> a == b || HeaderLength(a) == |a|
  {
    var h := HeaderLength(a);
    SettledHeader(a, b);
    if a != b && h < |a| { TailsDiffer(a, b, h); }
  }

  /** The lyric lines come back the same, in order, exactly when nothing is injected, the ending is
      safe, or the file has no lyric line to lose. */
  lemma LyricsAreKept(text: string, pt: ProvenanceTags)
    ensures After(text, pt)[HeaderLength(After(text, pt))..] == Before(text)[HeaderLength(Before(text))..]
            <==> Added(text, pt) == [] || Safe(text) || HeaderLength(Before(text)) == |Before(text)|
  {
    Rewritten(text, pt);
    if Added(text, pt) != [] {
      AllAddedAreTags(text, pt);
      SettledSettles(text);
      SplicedLyrics(Analyzed(Settled(text)), Analyzed(Added(text, pt)));
      SettledLyrics(Before(text), Analyzed(Settled(text)));
    }
  }

  lemma SettledLengthIff(a: seq<Line>, b: seq<Line>)
    requires Settles(a, b)
    ensures HeaderLength(b) == HeaderLength(a) <==> |b| == |a| || HeaderLength(a) < |a|
  {
    SettledHeader(a, b);
  }

  /** The last line is a lone carriage return, with no newline after it. */
  predicate EndsInBareCR(text: string) {
    var raws := ScanLines(text);
    raws != [] && !EndsWith(text, '\n') && raws[|raws| - 1] == ""
  }

  lemma BareCRIsDropped(text: string)
    ensures |Settled(text)| == |Before(text)| <==> !EndsInBareCR(text)
  {
    var raws, h := ScanLines(text), Header(Before(text));
    if raws != [] && raws[|raws| - 1] == "" {
      EmptyIsBlank();
      assert |h| == |raws| ==> h[|raws| - 1] == Analyze("");
    }
  }

  /** The header grows by exactly the injected lines, unless the file is all header and ends in a bare
      carriage return: that empty line is not written back. */
  lemma HeaderLengthGrowsIff(text: string, pt: ProvenanceTags)
    ensures HeaderLength(After(text, pt)) == HeaderLength(Before(text)) + |Added(text, pt)|
            <==> Added(text, pt) == [] || !EndsInBareCR(text) || HeaderLength(Before(text)) < |Before(text)|
  {
    Rewritten(text, pt);
    BareCRIsDropped(text);
    if Added(text, pt) != [] {
      AllAddedAreTags(text, pt);
      SettledSettles(text);
      SplicedHeader(Analyzed(Settled(text)), Analyzed(Added(text, pt)));
      SettledLengthIff(Before(text), Analyzed(Settled(text)));
    }
  }

  /** `out` is the old header with `add` in one block before its first blank line. */
  ghost predicate GrownHeader(h: seq<Line>, add: seq<Line>, out: seq<Line>) {
    exists k :: GrownAt(h, add, out, k)
  }

  ghost predicate GrownAt(h: seq<Line>, add: seq<Line>, out: seq<Line>, k: int) {
    && 0 <= k <= |h| && out == h[..k] + add + h[k..]
    && (forall i :: 0 <= i < k ==> h[i].tag.Some?) && (k < |h| ==> h[k].tag.None? && h[k].blank)
  }

  lemma SplicedHeaderIs(lines: seq<Line>, add: seq<Line>)
    requires forall j :: 0 <= j < |add| ==> add[j].tag.Some?
    ensures GrownAt(Header(lines), add, Header(Spliced(lines, add)), FirstBlank(Header(lines)))
  {
    var h := Header(lines);
    var k := FirstBlank(h);
    SplicedHeader(lines, add);
    assert Spliced(lines, add)[..|h| + |add|] == h[..k] + add + h[k..];
    if k < |h| { assert InHeader(lines[k]) && h[k] == lines[k]; }
  }

  lemma GrownAtFirstBlank(h: seq<Line>, add: seq<Line>, out: seq<Line>, k: int)
    requires GrownAt(h, add, out, k)
    ensures k == FirstBlank(h)
  {
    FirstBlankIs(h, k);
  }

  lemma GrownFromEqual(h: seq<Line>, g: seq<Line>, add: seq<Line>, out: seq<Line>)
    requires GrownHeader(h, add, out) && GrownHeader(g, add, out) && FirstBlank(h) == FirstBlank(g)
    ensures h == g
  {
    var k :| GrownAt(h, add, out, k);
    var m :| GrownAt(g, add, out, m);
    GrownAtFirstBlank(h, add, out, k);
    GrownAtFirstBlank(g, add, out, m);
    CutEqual(h, g, add, k);
  }

  lemma CutEqual(h: seq<Line>, g: seq<Line>, add: seq<Line>, k: nat)
    requires k <= |h| && k <= |g| && h[..k] + add + h[k..] == g[..k] + add + g[k..]
    ensures h == g
  {
    var s, t := h[..k] + add + h[k..], g[..k] + add + g[k..];
    assert s[..k] == h[..k] && t[..k] == g[..k];
    assert s[k + |add|..] == h[k..] && t[k + |add|..] == g[k..];
    assert h == h[..k] + h[k..] && g == g[..k] + g[k..];
  }

  lemma SettledHeaderSame(a: seq<Line>, b: seq<Line>)
    requires Settles(a, b)
    ensures Header(a) == Header(b) <==> a == b || HeaderLength(a) < |a|
  {
    SettledHeader(a, b);
    var n := |a| - 1;
    if a != b && HeaderLength(a) == |a| && |b| == |a| { assert Header(a)[n] == a[n] && Header(b)[n] == b[n]; }
    if a != b
      && HeaderLength(a) < |a| { assert a[..HeaderLength(a)] == a[..n][..HeaderLength(a)] == b[..HeaderLength(a)]; }
  }

  /** The new header is the old one with the new tags, in one block, before its first blank line,
      exactly when nothing is injected, the ending is safe, or the file's last line is a lyric line. */
  lemma HeaderGrows(text: string, pt: ProvenanceTags)
    ensures GrownHeader(Header(Before(text)), Analyzed(Added(text, pt)), Header(After(text, pt)))
            <==> Added(text, pt) == [] || Safe(text) || HeaderLength(Before(text)) < |Before(text)|
  {
    var lines, settled, add := Before(text), Analyzed(Settled(text)), Analyzed(Added(text, pt));
    Rewritten(text, pt);
    AllAddedAreTags(text, pt);
    SplicedHeaderIs(settled, add);
    if Added(text, pt) == [] {
      NothingGrown(lines);
    } else {
      SettledSettles(text);
      SettledHeaderSame(lines, settled);
      SettledFirstBlank(lines, settled);
      GrownIff(Header(lines), Header(settled), add, Header(After(text, pt)));
    }
  }

  lemma GrownIff(h: seq<Line>, g: seq<Line>, add: seq<Line>, out: seq<Line>)
    requires GrownHeader(g, add, out) && FirstBlank(h) == FirstBlank(g)
    ensures GrownHeader(h, add, out) <==> h == g
  {
    if GrownHeader(h, add, out) { GrownFromEqual(h, g, add, out); }
  }

  lemma NothingGrown(lines: seq<Line>)
    ensures GrownHeader(Header(lines), Analyzed([]), Header(lines))
  {
    SplicedHeaderIs(lines, []);
    NothingSpliced(lines);
    assert Analyzed([]) == [];
  }

  lemma NothingSpliced(lines: seq<Line>)
    ensures Spliced(lines, []) == lines
  {
    var k := FirstBlank(Header(lines));
    assert lines[..k] + [] + lines[k..] == lines;
  }

  /** The count reported is the number of lines added, and no line is added when it is zero. */
  lemma InjectedCount(text: string, pt: ProvenanceTags)
    ensures Injected(text, pt).1 == |Added(text, pt)|
    ensures Injected(text, pt).1 == 0 ==> Injected(text, pt).0 == text
  {
  }

  // ----- Idempotence -----

  lemma AddedKeyIsThere(pt: ProvenanceTags, header: seq<Line>, i: nat)
    requires i < 4 && Candidates(pt)[i].value != "" && !HasKey(header, Candidates(pt)[i].key)
    ensures ToAdd(Candidates(pt), header, 4) != []
    ensures HasKey(Analyzed(ToAdd(Candidates(pt), header, 4)), Candidates(pt)[i].key)
  {
    var cs := Candidates(pt);
    var add := ToAdd(cs, header, 4);
    CandidateKeys(pt);
    MissingIsAdded(cs, header, 4, i);
    var j :| 0 <= j < |add| && add[j] == RawTag(cs[i]);
    RawTagParses(cs[i]);
    assert Analyzed(add)[j].tag == Some(Tag(cs[i].key, cs[i].value, add[j]));
  }

  /** After a run every non-empty candidate's key is in the header, whatever the file ends in. */
  lemma KeysArePresent(text: string, pt: ProvenanceTags, i: nat)
    requires i < 4 && Candidates(pt)[i].value != ""
    ensures HasKey(Header(After(text, pt)), Candidates(pt)[i].key)
  {
    var lines, settled, key := Before(text), Analyzed(Settled(text)), Candidates(pt)[i].key;
    Rewritten(text, pt);
    SettledSettles(text);
    if HasKey(Header(lines), key) {
      SettledKeys(lines, settled, key);
    } else {
      AddedKeyIsThere(pt, Header(lines), i);
    }
    if Added(text, pt) != [] {
      AllAddedAreTags(text, pt);
      SplicedKeys(settled, Analyzed(Added(text, pt)), key);
    }
  }

  /** A second run with the same tags adds nothing, leaves the file alone and counts every non-empty
      candidate as skipped. */
  lemma SecondRunIsIdle(text: string, pt: ProvenanceTags)
    ensures Injected(Injected(text, pt).0, pt) == (Injected(text, pt).0, 0, NonEmpty(Candidates(pt), 4))
  {
    forall i | 0 <= i < 4 && Candidates(pt)[i].value != ""
      ensures HasKey(Header(After(text, pt)), Candidates(pt)[i].key)
    {
      KeysArePresent(text, pt, i);
    }
    NothingMissing(Candidates(pt), Header(After(text, pt)), 4);
  }

  // ----- The unsafe family is real -----

  lemma NoHeader(raw: string)
    requires raw == "x\r"
    ensures !InHeader(Analyze(raw))
  {
    assert raw[0] == 'x' && raw[1] == '\r' && raw[..1] == ['x'];
    assert TrimLeft(raw) == raw;
    assert TrimRight(['x']) == ['x'];
    assert TrimRight(raw) == ['x'];
  }

  /** A file ending in two carriage returns and no newline, which no LF or CRLF convention explains:
      any injection into it alters its last lyric line. */
  lemma StrayReturnIsLost(pt: ProvenanceTags)
    requires Added("x\r\r", pt) != []
    ensures var text := "x\r\r";
      After(text, pt)[HeaderLength(After(text, pt))..] != Before(text)[HeaderLength(Before(text))..]
  {
    var text, last := "x\r\r", "x\r";
    IndexAbsent(text, '\n');
    assert DropCR(text) == last && ScanLines(text) == [last] && !HasCRLF(text);
    NoHeader(last);
    assert Before(text)[0] == Analyze(last) && HeaderLength(Before(text)) == 0;
    assert last[|last| - 1] == '\r';
    LyricsAreKept(text, pt);
  }
}
