/** Which tag carries which field, and how often, in the re-parsed output of an injection
    (internal/lyrics/parser.go). */
module ProvenanceFields {
  import opened Prelude
  import opened Text
  import opened Provenance
  import opened ProvenanceLaws

  // ----- Sanitising -----

  /** Every character is kept, in its place, but closing brackets, carriage returns and newlines: the
      value of a text is those of its pieces, and a single character is kept or dropped. */
  lemma {:induction false} SanitizeDistributes(a: string, b: string)
    ensures SanitizeTagValue(a + b) == SanitizeTagValue(a) + SanitizeTagValue(b)
  {
    if a == "" {
      assert a + b == b;
    } else {
      assert (a + b)[0] == a[0] && (a + b)[1..] == a[1..] + b;
      SanitizeDistributes(a[1..], b);
    }
  }

  lemma SanitizeOne(c: char)
    ensures SanitizeTagValue([c]) == if c == ']' || c == '\r' || c == '\n' then "" else [c]
  {
    assert [c][1..] == "";
  }

  // ----- What a header tag is -----

  /** A line is a tag exactly when, trimmed, it is a bracketed key and value with a colon between them,
      the key not empty, without a colon and not starting with a digit (which would be a timestamp). */
  lemma TagIff(line: string, key: string, value: string)
    ensures ParseTagLine(line) == Some(Tag(key, value, line)) <==>
            && TrimSpace(line) == ['['] + key + [':'] + value + [']']
            && key != "" && ':' !in key && !('0' <= key[0] <= '9')
  {
    var s := TrimSpace(line);
    if ParseTagLine(line) == Some(Tag(key, value, line)) {
      var inner := s[1..|s| - 1];
      assert s == ['['] + inner + [']'];
      assert inner == key + [':'] + value;
    }
    if s == ['['] + key + [':'] + value + [']'] {
      var inner := s[1..|s| - 1];
      assert inner == key + [':'] + value;
      if ':' !in key {
        IndexAfter(key, ':', value);
        assert inner[..|key|] == key && inner[|key| + 1..] == value;
      }
    }
  }

  // ----- Counting a key -----

  /** How many header lines carry the key, letter case aside. */
  function CountKey(header: seq<Line>, key: string): nat {
    if header == [] then 0
    else
      var last := header[|header| - 1];
      CountKey(header[..|header| - 1], key) + (if last.tag.Some? && Lower(last.tag.value.key) == key then 1 else 0)
  }

  lemma {:induction false} CountZeroIff(header: seq<Line>, key: string)
    ensures CountKey(header, key) == 0 <==> !HasKey(header, key)
  {
    if header != [] {
      var n := |header| - 1;
      var init := header[..n];
      CountZeroIff(init, key);
      if HasKey(init, key) {
        var i :| 0 <= i < |init| && init[i].tag.Some? && Lower(init[i].tag.value.key) == key;
        assert header[i] == init[i];
      }
      if HasKey(header, key) && CountKey(header, key) == CountKey(init, key) {
        var i :| 0 <= i < |header| && header[i].tag.Some? && Lower(header[i].tag.value.key) == key;
        assert i < n && init[i] == header[i];
      }
    }
  }

  lemma {:induction false} CountConcat(a: seq<Line>, b: seq<Line>, key: string)
    ensures CountKey(a + b, key) == CountKey(a, key) + CountKey(b, key)
  {
    if b == [] {
      assert a + b == a;
    } else {
      assert (a + b)[..|a + b| - 1] == a + b[..|b| - 1];
      CountConcat(a, b[..|b| - 1], key);
    }
  }

  lemma {:induction false} CountAlike(h: seq<Line>, g: seq<Line>, key: string)
    requires |g| == |h| && forall i :: 0 <= i < |g| ==> g[i].tag.Some? == h[i].tag.Some?
    requires forall i :: 0 <= i < |g| && h[i].tag.Some? ==> g[i].tag.value.key == h[i].tag.value.key
    ensures CountKey(g, key) == CountKey(h, key)
  {
    if g != [] {
      var n := |g| - 1;
      assert g[n].tag.Some? == h[n].tag.Some?;
      CountAlike(h[..n], g[..n], key);
    }
  }

  lemma CountFollows(h: seq<Line>, g: seq<Line>, key: string)
    requires |g| <= |h| <= |g| + 1 && (|g| < |h| ==> h[|g|].tag.None?)
    requires forall i :: 0 <= i < |g| ==> g[i].tag.Some? == h[i].tag.Some?
    requires forall i :: 0 <= i < |g| && h[i].tag.Some? ==> g[i].tag.value.key == h[i].tag.value.key
    ensures CountKey(g, key) == CountKey(h, key)
  {
    CountAlike(h[..|g|], g, key);
    if |g| == |h| { assert h[..|g|] == h; }
  }

  lemma SettledCount(a: seq<Line>, b: seq<Line>, key: string)
    requires Settles(a, b)
    ensures CountKey(Header(b), key) == CountKey(Header(a), key)
  {
    SettledHeader(a, b);
    SettlesFollows(a, b);
    CountFollows(Header(a), Header(b), key);
  }

  lemma CutCount(h: seq<Line>, add: seq<Line>, k: nat, key: string)
    requires k <= |h|
    ensures CountKey(h[..k] + add + h[k..], key) == CountKey(h, key) + CountKey(add, key)
  {
    CountConcat(h[..k] + add, h[k..], key);
    CountConcat(h[..k], add, key);
    CountConcat(h[..k], h[k..], key);
    assert h[..k] + h[k..] == h;
  }

  // ----- The added tags -----

  /** The tag a candidate's raw line reads back as. */
  lemma AddedTag(c: Candidate, key: string)
    requires PlainKey(c.key)
    ensures CountKey(Analyzed([RawTag(c)]), key) == if c.key == key then 1 else 0
    ensures Analyze(RawTag(c)).tag == Some(Tag(c.key, c.value, RawTag(c)))
  {
    RawTagParses(c);
    var l := Analyzed([RawTag(c)]);
    assert l[..0] == [] && l[0] == Analyze(RawTag(c));
  }

  predicate AllPlain(cs: seq<Candidate>) {
    forall i :: 0 <= i < |cs| ==> PlainKey(cs[i].key)
  }

  predicate Distinct(cs: seq<Candidate>) {
    forall a, b :: 0 <= a < b < |cs| ==> cs[a].key != cs[b].key
  }

  predicate Wanted(c: Candidate, header: seq<Line>) {
    c.value != "" && !HasKey(header, c.key)
  }

  /** How many of the first n candidates are wanted under the key. */
  function WantedCount(cs: seq<Candidate>, header: seq<Line>, n: nat, key: string): nat
    requires n <= |cs|
  {
    if n == 0 then 0
    else WantedCount(cs, header, n - 1, key) + (if cs[n - 1].key == key && Wanted(cs[n - 1], header) then 1 else 0)
  }

  lemma {:induction false} WantedElsewhere(cs: seq<Candidate>, header: seq<Line>, n: nat, key: string)
    requires n <= |cs| && forall i :: 0 <= i < n ==> cs[i].key != key
    ensures WantedCount(cs, header, n, key) == 0
  {
    if n > 0 { WantedElsewhere(cs, header, n - 1, key); }
  }

  lemma {:induction false} WantedOnce(cs: seq<Candidate>, header: seq<Line>, n: nat, i: nat)
    requires i < n <= |cs| && Distinct(cs)
    ensures WantedCount(cs, header, n, cs[i].key) == if Wanted(cs[i], header) then 1 else 0
  {
    if i == n - 1 {
      WantedElsewhere(cs, header, i, cs[i].key);
    } else {
      WantedOnce(cs, header, n - 1, i);
    }
  }

  lemma CountPushed(raws: seq<string>, c: Candidate, key: string)
    requires PlainKey(c.key)
    ensures CountKey(Analyzed(raws + [RawTag(c)]), key)
            == CountKey(Analyzed(raws), key) + if c.key == key then 1 else 0
  {
    AddedTag(c, key);
    CountConcat(Analyzed(raws), Analyzed([RawTag(c)]), key);
    assert Analyzed(raws + [RawTag(c)]) == Analyzed(raws) + Analyzed([RawTag(c)]);
  }

  /** `count` grows by one with each tag written under the key. */
  ghost predicate CountsTags(count: seq<string> -> nat, cs: seq<Candidate>, key: string) {
    && count([]) == 0
    && forall raws, c :: c in cs ==> count(raws + [RawTag(c)]) == count(raws) + if c.key == key then 1 else 0
  }

  lemma {:induction false} CountsWanted(count: seq<string> -> nat, cs: seq<Candidate>, header: seq<Line>, n: nat,
                                        key: string)
    requires n <= |cs| && CountsTags(count, cs, key)
    ensures count(ToAdd(cs, header, n)) == WantedCount(cs, header, n, key)
  {
    if n > 0 { CountsWanted(count, cs, header, n - 1, key); }
  }

  lemma CountKeyCounts(cs: seq<Candidate>, key: string)
    requires AllPlain(cs)
    ensures CountsTags(raws => CountKey(Analyzed(raws), key), cs, key)
  {
    forall raws, c | c in cs
      ensures CountKey(Analyzed(raws + [RawTag(c)]), key)
              == CountKey(Analyzed(raws), key) + if c.key == key then 1 else 0
    {
      CountPushed(raws, c, key);
    }
  }

  lemma AddedCount(cs: seq<Candidate>, header: seq<Line>, n: nat, key: string)
    requires n <= |cs| && AllPlain(cs)
    ensures CountKey(Analyzed(ToAdd(cs, header, n)), key) == WantedCount(cs, header, n, key)
  {
    CountKeyCounts(cs, key);
    CountsWanted(raws => CountKey(Analyzed(raws), key), cs, header, n, key);
  }

  // ----- The fields -----

  /** `header` has a line tagged with exactly this key and value. */
  ghost predicate Carries(header: seq<Line>, key: string, value: string) {
    exists l :: l in header && l.tag.Some? && l.tag.value.key == key && l.tag.value.value == value
  }

  /** A field that sanitises to something, and whose key the header lacked, is written as the header's
      only tag of that key; otherwise the header has as many of them as before. */
  ghost predicate FieldWritten(text: string, pt: ProvenanceTags, key: string, field: string) {
    var before, after := Header(Before(text)), Header(After(text, pt));
    if SanitizeTagValue(field) != "" && CountKey(before, key) == 0 then
      CountKey(after, key) == 1 && Carries(after, key, SanitizeTagValue(field))
    else CountKey(after, key) == CountKey(before, key)
  }

  lemma HeaderCount(text: string, pt: ProvenanceTags, key: string)
    ensures CountKey(Header(After(text, pt)), key)
            == CountKey(Header(Before(text)), key) + CountKey(Analyzed(Added(text, pt)), key)
  {
    Rewritten(text, pt);
    if Added(text, pt) != [] {
      var settled, add := Analyzed(Settled(text)), Analyzed(Added(text, pt));
      SettledSettles(text);
      SettledCount(Before(text), settled, key);
      AllAddedAreTags(text, pt);
      SplicedHeaderIs(settled, add);
      CutCount(Header(settled), add, FirstBlank(Header(settled)), key);
    }
  }

  lemma AddedIsThere(h: seq<Line>, add: seq<Line>, out: seq<Line>, k: int, j: nat)
    requires GrownAt(h, add, out, k) && j < |add|
    ensures add[j] in out
  {
    assert out[k + j] == add[j];
  }

  lemma AddedIsCarried(text: string, pt: ProvenanceTags, j: nat)
    requires j < |Added(text, pt)|
    ensures Analyze(Added(text, pt)[j]) in Header(After(text, pt))
  {
    var settled, add := Analyzed(Settled(text)), Analyzed(Added(text, pt));
    Rewritten(text, pt);
    AllAddedAreTags(text, pt);
    SplicedHeaderIs(settled, add);
    AddedIsThere(Header(settled), add, Header(Spliced(settled, add)), FirstBlank(Header(settled)), j);
  }

  lemma CandidatesPlain(pt: ProvenanceTags)
    ensures AllPlain(Candidates(pt)) && Distinct(Candidates(pt))
  {
    CandidateKeys(pt);
    assert "source"[0] == 's' && "fetched"[0] == 'f' && "isrc"[0] == 'i' && "mbid"[0] == 'm';
  }

  lemma CandidateCount(text: string, pt: ProvenanceTags, i: nat)
    requires i < 4
    ensures var c, header := Candidates(pt)[i], Header(Before(text));
            CountKey(Header(After(text, pt)), c.key)
            == CountKey(header, c.key) + if Wanted(c, header) then 1 else 0
  {
    var cs, header := Candidates(pt), Header(Before(text));
    CandidatesPlain(pt);
    HeaderCount(text, pt, cs[i].key);
    AddedCount(cs, header, 4, cs[i].key);
    WantedOnce(cs, header, 4, i);
  }

  lemma CandidateCarried(text: string, pt: ProvenanceTags, i: nat)
    requires i < 4 && Wanted(Candidates(pt)[i], Header(Before(text)))
    ensures Carries(Header(After(text, pt)), Candidates(pt)[i].key, Candidates(pt)[i].value)
  {
    var cs, header := Candidates(pt), Header(Before(text));
    CandidatesPlain(pt);
    MissingIsAdded(cs, header, 4, i);
    var j :| 0 <= j < |Added(text, pt)| && Added(text, pt)[j] == RawTag(cs[i]);
    AddedTag(cs[i], cs[i].key);
    AddedIsCarried(text, pt, j);
  }

  lemma CandidateWritten(text: string, pt: ProvenanceTags, i: nat, field: string)
    requires i < 4 && Candidates(pt)[i].value == SanitizeTagValue(field)
    ensures FieldWritten(text, pt, Candidates(pt)[i].key, field)
  {
    var c, header := Candidates(pt)[i], Header(Before(text));
    CountZeroIff(header, c.key);
    CandidateCount(text, pt, i);
    if Wanted(c, header) { CandidateCarried(text, pt, i); }
  }

  /** Each of the four fields goes to its own tag. */
  lemma FieldsAreWritten(text: string, pt: ProvenanceTags)
    ensures FieldWritten(text, pt, "source", pt.source)
    ensures FieldWritten(text, pt, "fetched", pt.fetched)
    ensures FieldWritten(text, pt, "isrc", pt.isrc)
    ensures FieldWritten(text, pt, "mbid", pt.mbid)
  {
    CandidateWritten(text, pt, 0, pt.source);
    CandidateWritten(text, pt, 1, pt.fetched);
    CandidateWritten(text, pt, 2, pt.isrc);
    CandidateWritten(text, pt, 3, pt.mbid);
  }

  lemma NoneAdded(cs: seq<Candidate>, header: seq<Line>, key: string)
    requires AllPlain(cs) && forall i :: 0 <= i < |cs| ==> cs[i].key != key
    ensures CountKey(Analyzed(ToAdd(cs, header, |cs|)), key) == 0
  {
    AddedCount(cs, header, |cs|, key);
    WantedElsewhere(cs, header, |cs|, key);
  }

  lemma KeysOfCandidates(pt: ProvenanceTags)
    ensures |Candidates(pt)| == 4
    ensures forall i :: 0 <= i < 4 ==> Candidates(pt)[i].key in {"source", "fetched", "isrc", "mbid"}
  {
  }

  /** No other key gains or loses a tag. */
  lemma OtherKeysKeepTheirTags(text: string, pt: ProvenanceTags, key: string)
    requires key !in {"source", "fetched", "isrc", "mbid"}
    ensures CountKey(Header(After(text, pt)), key) == CountKey(Header(Before(text)), key)
  {
    var cs := Candidates(pt);
    CandidatesPlain(pt);
    KeysOfCandidates(pt);
    HeaderCount(text, pt, key);
    NoneAdded(cs, Header(Before(text)), key);
  }
}
