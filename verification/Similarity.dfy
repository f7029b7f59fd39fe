/** Jaro-Winkler similarity over two match arrays (internal/normalize/normalize.go). Strings are
    sequences of runes and scores are reals. */
module Similarity {
  import opened Prelude

  // ----- Declarative form -----

  function MatchDistance(l1: int, l2: int): int {
    Max(0, Max(l1, l2) / 2 - 1)
  }

  /** The first unused position in [j, hi] that holds c, or -1. */
  function FirstFree(c: char, r2: seq<char>, used: seq<bool>, j: nat, hi: int): (p: int)
    requires hi < |r2| == |used|
    ensures p == -1 || (j <= p <= hi && !used[p] && r2[p] == c)
    ensures forall q :: j <= q <= hi && (p == -1 || q < p) ==> used[q] || r2[q] != c
    decreases hi - j
  {
    if j > hi then -1
    else if !used[j] && r2[j] == c then j
    else FirstFree(c, r2, used, j + 1, hi)
  }

  function Partner(r1: seq<char>, r2: seq<char>, dist: nat, i: nat, used: seq<bool>): (p: int)
    requires i < |r1| && |used| == |r2|
    ensures p == -1 || (0 <= p < |r2| && !used[p] && r2[p] == r1[i])
  {
    FirstFree(r1[i], r2, used, Max(0, i - dist), Min(|r2| - 1, i + dist))
  }

  /** The two mark arrays after the first i runes have each taken the first free partner in range. */
  function Marks(r1: seq<char>, r2: seq<char>, dist: nat, i: nat): (m: (seq<bool>, seq<bool>))
    requires i <= |r1|
    ensures |m.0| == |r1| && |m.1| == |r2|
  {
    if i == 0 then (seq(|r1|, _ => false), seq(|r2|, _ => false))
    else
      var (a, b) := Marks(r1, r2, dist, i - 1);
      var j := Partner(r1, r2, dist, i - 1, b);
      if j >= 0 then (a[i - 1 := true], b[j := true]) else (a, b)
  }

  /** The marked runes among the first n, in order. */
  function Selected(r: seq<char>, m: seq<bool>, n: nat): (s: seq<char>)
    requires n <= |r| == |m|
    ensures |s| <= n
  {
    if n == 0 then []
    else if m[n - 1] then Selected(r, m, n - 1) + [r[n - 1]]
    else Selected(r, m, n - 1)
  }

  function Mismatches(a: seq<char>, b: seq<char>): (t: nat)
    requires |a| == |b|
    ensures t <= |a|
    ensures t == 0 <==> a == b
  {
    if a == [] then 0
    else
      var a', b' := a[..|a| - 1], b[..|b| - 1];
      assert a == a' + [a[|a| - 1]] && b == b' + [b[|b| - 1]];
      Mismatches(a', b') + (if a[|a| - 1] != b[|b| - 1] then 1 else 0)
  }

  function PrefixLength(r1: seq<char>, r2: seq<char>, max: nat): (p: nat)
    requires max <= |r1| && max <= |r2|
    ensures p <= max && r1[..p] == r2[..p] && (p < max ==> r1[p] != r2[p])
  {
    if max == 0 then 0
    else
      var p := PrefixLength(r1, r2, max - 1);
      if p == max - 1 && r1[p] == r2[p] then
        (assert r1[..max] == r1[..p] + [r1[p]] && r2[..max] == r2[..p] + [r2[p]]; max) else p
  }

  function Jaro(matches: nat, transpositions: nat, l1: nat, l2: nat): real
    requires matches > 0 && l1 > 0 && l2 > 0
  {
    var fm := matches as real;
    (fm / l1 as real + fm / l2 as real + (fm - transpositions as real / 2.0) / fm) / 3.0
  }

  /** The prefix bonus: weight 0.1 per rune of common prefix. */
  function Boosted(jaro: real, prefix: nat): real {
    jaro + prefix as real * 0.1 * (1.0 - jaro)
  }

  /** The matched runes of each string, in order. */
  function Matched(r1: seq<char>, r2: seq<char>): (s: (seq<char>, seq<char>))
    ensures |s.0| == |s.1| && |s.0| <= |r1| && |s.1| <= |r2|
  {
    var dist := MatchDistance(|r1|, |r2|);
    MarksAgree(r1, r2, dist, |r1|);
    (Selected(r1, Marks(r1, r2, dist, |r1|).0, |r1|), Selected(r2, Marks(r1, r2, dist, |r1|).1, |r2|))
  }

  function JaroWinkler(r1: seq<char>, r2: seq<char>): real {
    if r1 == r2 then 1.0
    else if r1 == [] || r2 == [] then 0.0
    else
      var (s1, s2) := Matched(r1, r2);
      if s1 == [] then 0.0
      else Boosted(Jaro(|s1|, Mismatches(s1, s2), |r1|, |r2|), PrefixLength(r1, r2, Min(4, Min(|r1|, |r2|))))
  }

  lemma {:induction false} UnmarkedAbove(r: seq<char>, m: seq<bool>, n: nat, j: nat)
    requires n <= |r| == |m| && n <= j < |m|
    ensures Selected(r, m[j := true], n) == Selected(r, m, n)
  {
    if n > 0 { UnmarkedAbove(r, m, n - 1, j); }
  }

  lemma {:induction false} MarkOneMore(r: seq<char>, m: seq<bool>, n: nat, j: nat)
    requires j < n <= |r| == |m| && !m[j]
    ensures |Selected(r, m[j := true], n)| == |Selected(r, m, n)| + 1
  {
    if j < n - 1 { MarkOneMore(r, m, n - 1, j); } else { UnmarkedAbove(r, m, j, j); }
  }

  lemma {:induction false} NothingMarked(r: seq<char>, m: seq<bool>, n: nat)
    requires n <= |r| == |m| && forall j :: 0 <= j < n ==> !m[j]
    ensures Selected(r, m, n) == []
  {
    if n > 0 { NothingMarked(r, m, n - 1); }
  }

  /** Both arrays hold equally many marks. */
  lemma {:induction false} MarksAgree(r1: seq<char>, r2: seq<char>, dist: nat, i: nat)
    requires i <= |r1|
    ensures var m := Marks(r1, r2, dist, i);
      && |Selected(r1, m.0, |r1|)| == |Selected(r2, m.1, |r2|)|
      && (forall j :: i <= j < |r1| ==> !m.0[j])
  {
    if i == 0 {
      NothingMarked(r1, Marks(r1, r2, dist, 0).0, |r1|);
      NothingMarked(r2, Marks(r1, r2, dist, 0).1, |r2|);
    } else {
      MarksAgree(r1, r2, dist, i - 1);
      var (a, b) := Marks(r1, r2, dist, i - 1);
      var j := Partner(r1, r2, dist, i - 1, b);
      if j >= 0 {
        MarkOneMore(r1, a, |r1|, i - 1);
        MarkOneMore(r2, b, |r2|, j);
      }
    }
  }

  // ----- The imperative form -----

  lemma {:induction false} SelectedGrows(r: seq<char>, m: seq<bool>, k: nat, n: nat)
    requires k <= n <= |r| == |m|
    ensures |Selected(r, m, k)| <= |Selected(r, m, n)|
    ensures (forall j :: k <= j < n ==> !m[j]) ==> Selected(r, m, n) == Selected(r, m, k)
  {
    if k < n { SelectedGrows(r, m, k, n - 1); }
  }

  /** The inner search of the matching loop. */
  method FindPartner(c: char, r2: seq<char>, m2: array<bool>, lo: nat, hi: int) returns (j: int)
    requires hi < |r2| == m2.Length
    ensures j == FirstFree(c, r2, m2[..], lo, hi)
  {
    j := lo;
    while j <= hi
      invariant lo <= j && FirstFree(c, r2, m2[..], lo, hi) == FirstFree(c, r2, m2[..], j, hi)
    {
      if !m2[j] && c == r2[j] {
        return j;
      }
      j := j + 1;
    }
    return -1;
  }

  method Mark(m1: array<bool>, m2: array<bool>, i: nat, j: nat)
    requires m1 != m2 && i < m1.Length && j < m2.Length
    modifies m1, m2
    ensures m1[..] == old(m1[..])[i := true] && m2[..] == old(m2[..])[j := true]
  {
    m1[i] := true;
    m2[j] := true;
  }

  /** One turn of the matching loop. */
  method MatchOne(r1: seq<char>, r2: seq<char>, dist: nat, i: nat, m1: array<bool>, m2: array<bool>, matches: nat)
    returns (matches': nat)
    requires i < |r1| && m1 != m2 && m1[..] == Marks(r1, r2, dist, i).0 && m2[..] == Marks(r1, r2, dist, i).1
    requires matches == |Selected(r1, m1[..], |r1|)|
    modifies m1, m2
    ensures m1[..] == Marks(r1, r2, dist, i + 1).0 && m2[..] == Marks(r1, r2, dist, i + 1).1
    ensures matches' == |Selected(r1, m1[..], |r1|)|
  {
    MarksAgree(r1, r2, dist, i);
    matches' := matches;
    var j := FindPartner(r1[i], r2, m2, Max(0, i - dist), Min(|r2| - 1, i + dist));
    if j >= 0 {
      MarkOneMore(r1, m1[..], |r1|, i);
      Mark(m1, m2, i, j);
      matches' := matches + 1;
    }
  }

  /** The matching loop: fills the arrays, counts the matches. */
  method MatchRunes(r1: seq<char>, r2: seq<char>, dist: nat) returns (m1: array<bool>, m2: array<bool>, matches: nat)
    ensures m1[..] == Marks(r1, r2, dist, |r1|).0 && m2[..] == Marks(r1, r2, dist, |r1|).1
    ensures matches == |Selected(r1, m1[..], |r1|)|
  {
    m1 := new bool[|r1|](_ => false);
    m2 := new bool[|r2|](_ => false);
    NothingMarked(r1, m1[..], |r1|);
    matches := 0;
    var i := 0;
    while i != |r1|
      invariant 0 <= i <= |r1| && fresh(m1) && fresh(m2) && m1 != m2
      invariant m1[..] == Marks(r1, r2, dist, i).0 && m2[..] == Marks(r1, r2, dist, i).1
      invariant matches == |Selected(r1, m1[..], |r1|)|
      decreases |r1| - i
    {
      matches := MatchOne(r1, r2, dist, i, m1, m2, matches);
      i := i + 1;
    }
  }

  /** `for !m2[k] { k++ }`: stays in bounds because a mark is still to come. */
  method NextMark(r2: seq<char>, m2: array<bool>, start: nat) returns (k: nat)
    requires start <= |r2| == m2.Length
    requires |Selected(r2, m2[..], start)| < |Selected(r2, m2[..], |r2|)|
    ensures start <= k < |r2| && Selected(r2, m2[..], k + 1) == Selected(r2, m2[..], start) + [r2[k]]
  {
    k := start;
    while !m2[k]
      invariant start <= k < |r2| && Selected(r2, m2[..], k) == Selected(r2, m2[..], start)
      decreases |r2| - k
    {
      assert Selected(r2, m2[..], k + 1) == Selected(r2, m2[..], start);
      k := k + 1;
    }
  }

  /** One turn of the transposition loop, for a marked rune. */
  method CompareOne(r1: seq<char>, r2: seq<char>, m1: array<bool>, m2: array<bool>, i: nat, k: nat, t: nat)
    returns (k': nat, t': nat)
    requires i < |r1| == m1.Length && k <= |r2| == m2.Length && m1[i]
    requires |Selected(r1, m1[..], |r1|)| == |Selected(r2, m2[..], |r2|)|
    requires |Selected(r1, m1[..], i)| == |Selected(r2, m2[..], k)|
    requires t == Mismatches(Selected(r1, m1[..], i), Selected(r2, m2[..], k))
    ensures k' <= |r2| && |Selected(r1, m1[..], i + 1)| == |Selected(r2, m2[..], k')|
    ensures t' == Mismatches(Selected(r1, m1[..], i + 1), Selected(r2, m2[..], k'))
  {
    ghost var a, b := m1[..], m2[..];
    MoreToCome(r1, a, i, |Selected(r2, b, k)|);
    k' := NextMark(r2, m2, k);
    CompareStep(r1, a, i, r2, b, k, k');
    t' := if r1[i] != r2[k'] then t + 1 else t;
    k' := k' + 1;
  }

  lemma MoreToCome(r1: seq<char>, a: seq<bool>, i: nat, n: nat)
    requires i < |r1| == |a| && a[i] && |Selected(r1, a, i)| == n
    ensures n < |Selected(r1, a, |r1|)|
  {
    SelectedGrows(r1, a, i + 1, |r1|);
  }

  lemma CompareStep(r1: seq<char>, a: seq<bool>, i: nat, r2: seq<char>, b: seq<bool>, k: nat, m: nat)
    requires i < |r1| == |a| && a[i] && k <= m < |r2| == |b|
    requires |Selected(r1, a, i)| == |Selected(r2, b, k)|
    requires Selected(r2, b, m + 1) == Selected(r2, b, k) + [r2[m]]
    ensures |Selected(r1, a, i + 1)| == |Selected(r2, b, m + 1)|
    ensures Mismatches(Selected(r1, a, i + 1), Selected(r2, b, m + 1))
            == Mismatches(Selected(r1, a, i), Selected(r2, b, k)) + (if r1[i] != r2[m] then 1 else 0)
  {
    MismatchesStep(Selected(r1, a, i), Selected(r2, b, k), r1[i], r2[m]);
  }

  /** The transposition scan. */
  method CountTranspositions(r1: seq<char>, r2: seq<char>, m1: array<bool>, m2: array<bool>) returns (t: nat)
    requires m1.Length == |r1| && m2.Length == |r2|
    requires |Selected(r1, m1[..], |r1|)| == |Selected(r2, m2[..], |r2|)|
    ensures t == Mismatches(Selected(r1, m1[..], |r1|), Selected(r2, m2[..], |r2|))
  {
    t := 0;
    var k: nat, i: nat := 0, 0;
    while i != |r1|
      invariant i <= |r1| && k <= |r2| && |Selected(r1, m1[..], i)| == |Selected(r2, m2[..], k)|
      invariant t == Mismatches(Selected(r1, m1[..], i), Selected(r2, m2[..], k))
      decreases |r1| - i
    {
      if m1[i] {
        k, t := CompareOne(r1, r2, m1, m2, i, k, t);
      }
      i := i + 1;
    }
    AllSelected(r2, m2[..], k);
  }

  lemma MismatchesStep(a: seq<char>, b: seq<char>, c: char, d: char)
    requires |a| == |b|
    ensures Mismatches(a + [c], b + [d]) == Mismatches(a, b) + (if c != d then 1 else 0)
  {
    assert (a + [c])[..|a|] == a && (b + [d])[..|b|] == b;
  }

  /** No further marks once the count is complete. */
  lemma {:induction false} AllSelected(r: seq<char>, m: seq<bool>, k: nat)
    requires k <= |r| == |m| && |Selected(r, m, k)| == |Selected(r, m, |r|)|
    ensures Selected(r, m, k) == Selected(r, m, |r|)
    decreases |r| - k
  {
    if k < |r| {
      SelectedGrows(r, m, k + 1, |r|);
      AllSelected(r, m, k + 1);
    }
  }

  method CommonPrefix(r1: seq<char>, r2: seq<char>, maxPref: nat) returns (prefLen: nat)
    requires maxPref <= |r1| && maxPref <= |r2|
    ensures prefLen == PrefixLength(r1, r2, maxPref)
  {
    prefLen := 0;
    for i := 0 to maxPref
      invariant prefLen == i && r1[..i] == r2[..i]
    {
      if r1[i] == r2[i] {
        prefLen := prefLen + 1;
        assert r1[..i + 1] == r1[..i] + [r1[i]] && r2[..i + 1] == r2[..i] + [r2[i]];
      } else {
        break;
      }
    }
    PrefixIsUnique(r1, r2, maxPref, prefLen);
  }

  method Score(r1: seq<char>, r2: seq<char>) returns (score: real)
    ensures score == JaroWinkler(r1, r2)
  {
    if r1 == r2 {
      return 1.0;
    }
    if |r1| == 0 || |r2| == 0 {
      return 0.0;
    }
    var dist := Max(|r1|, |r2|) / 2 - 1;
    if dist < 0 {
      dist := 0;
    }
    var m1, m2, matches := MatchRunes(r1, r2, dist);
    assert dist == MatchDistance(|r1|, |r2|);
    if matches == 0 {
      return 0.0;
    }
    MarksAgree(r1, r2, dist, |r1|);
    var transpositions := CountTranspositions(r1, r2, m1, m2);
    var prefLen := CommonPrefix(r1, r2, Min(4, Min(|r1|, |r2|)));
    return Boosted(Jaro(matches, transpositions, |r1|, |r2|), prefLen);
  }

  lemma SamePrefix(r1: seq<char>, r2: seq<char>, p: nat)
    requires p <= |r1| && p <= |r2| && r1[..p] == r2[..p]
    ensures forall k :: 0 <= k < p ==> r1[k] == r2[k]
  {
    forall k | 0 <= k < p
      ensures r1[k] == r2[k]
    {
      assert r1[..p][k] == r2[..p][k];
    }
  }

  lemma PrefixIsUnique(r1: seq<char>, r2: seq<char>, max: nat, p: nat)
    requires p <= max <= |r1| && max <= |r2|
    requires r1[..p] == r2[..p] && (p < max ==> r1[p] != r2[p])
    ensures p == PrefixLength(r1, r2, max)
  {
    var q := PrefixLength(r1, r2, max);
    SamePrefix(r1, r2, p);
    SamePrefix(r1, r2, q);
  }

  // ----- What the score promises -----

  lemma {:induction false} FullySelected(r: seq<char>, m: seq<bool>, n: nat)
    requires n <= |r| == |m| && |Selected(r, m, n)| == n
    ensures Selected(r, m, n) == r[..n]
  {
    if n > 0 {
      FullySelected(r, m, n - 1);
      assert r[..n] == r[..n - 1] + [r[n - 1]];
    }
  }

  lemma RatioRange(a: real, b: real)
    requires 0.0 <= a <= b && b > 0.0
    ensures 0.0 <= a / b <= 1.0 && (a / b == 1.0 <==> a == b) && (a > 0.0 ==> a / b > 0.0)
  {
    var q := a / b;
    assert q * b == a && (1.0 - q) * b == b - a;
    SignOfFactor(q, b);
    SignOfFactor(1.0 - q, b);
  }

  lemma SignOfFactor(x: real, b: real)
    requires b > 0.0
    ensures (x * b > 0.0 <==> x > 0.0) && (x * b == 0.0 <==> x == 0.0)
  {
    if x > 0.0 {
      assert x * b > 0.0;
    } else if x < 0.0 {
      assert (-x) * b > 0.0;
    }
  }

  lemma ThirdsRange(x: real, y: real, z: real)
    requires 0.0 < x <= 1.0 && 0.0 < y <= 1.0 && 0.0 <= z <= 1.0
    ensures 0.0 < (x + y + z) / 3.0 <= 1.0
    ensures (x + y + z) / 3.0 == 1.0 <==> x == y == z == 1.0
  {
  }

  lemma JaroRange(matches: nat, t: nat, l1: nat, l2: nat)
    requires 0 < matches <= l1 && matches <= l2 && t <= matches
    ensures 0.0 < Jaro(matches, t, l1, l2) <= 1.0
    ensures Jaro(matches, t, l1, l2) == 1.0 <==> matches == l1 == l2 && t == 0
  {
    var fm := matches as real;
    var rest := fm - t as real / 2.0;
    RatioRange(fm, l1 as real);
    RatioRange(fm, l2 as real);
    RatioRange(rest, fm);
    ThirdsRange(fm / l1 as real, fm / l2 as real, rest / fm);
  }

  lemma BonusRange(jaro: real, p: nat)
    requires 0.0 <= jaro <= 1.0 && p <= 4
    ensures jaro <= Boosted(jaro, p) <= 1.0
    ensures Boosted(jaro, p) == 1.0 <==> jaro == 1.0
  {
    var w, gap := p as real * 0.1, 1.0 - jaro;
    SignOfFactor(gap, 1.0 - w);
    if w > 0.0 { SignOfFactor(gap, w); }
    assert Boosted(jaro, p) == jaro + w * gap == 1.0 - gap * (1.0 - w);
  }

  /** The positions at which two sequences differ. */
  function Differing(a: seq<char>, b: seq<char>): set<int>
    requires |a| == |b|
  {
    set k: int | 0 <= k < |a| && a[k] != b[k]
  }

  lemma {:induction false} MismatchesCount(a: seq<char>, b: seq<char>)
    requires |a| == |b|
    ensures Mismatches(a, b) == |Differing(a, b)|
  {
    if a != [] {
      var n := |a| - 1;
      MismatchesCount(a[..n], b[..n]);
      var was := Differing(a[..n], b[..n]);
      assert forall k :: 0 <= k < n ==> a[..n][k] == a[k] && b[..n][k] == b[k];
      assert Differing(a, b) == was + (if a[n] != b[n] then {n} else {});
    }
  }

  /** The longest common prefix of up to four runes. */
  predicate IsBonusPrefix(r1: seq<char>, r2: seq<char>, p: int) {
    && 0 <= p <= 4 && p <= |r1| && p <= |r2| && r1[..p] == r2[..p]
    && (p == 4 || p == |r1| || p == |r2| || r1[p] != r2[p])
  }

  /** The formula the score follows: each transposition is a position at which the matched runes of the
      two strings differ, two of them cost one match, and every rune of common prefix, up to four,
      makes up a tenth of what is missing from one. */
  lemma ScoreFormula(r1: seq<char>, r2: seq<char>) returns (jaro: real, p: nat)
    requires r1 != r2 && r1 != [] && r2 != [] && Matched(r1, r2).0 != []
    ensures var (s1, s2) := Matched(r1, r2);
      var m, t := |s1| as real, |Differing(s1, s2)| as real;
      jaro == (m / |r1| as real + m / |r2| as real + (1.0 - t / (2.0 * m))) / 3.0
    ensures 1.0 - JaroWinkler(r1, r2) == (1.0 - jaro) * (1.0 - p as real / 10.0) && IsBonusPrefix(r1, r2, p)
  {
    var (s1, s2) := Matched(r1, r2);
    MismatchesCount(s1, s2);
    p := PrefixLength(r1, r2, Min(4, Min(|r1|, |r2|)));
    jaro := Jaro(|s1|, Mismatches(s1, s2), |r1|, |r2|);
    HalvedMismatches(|s1| as real, Mismatches(s1, s2) as real);
    BonusShortfall(jaro, p);
  }

  lemma Quotient(x: real, m: real, y: real)
    requires m > 0.0 && x * m == y
    ensures y / m == x
  {
    var q := y / m;
    assert q * m == y;
    assert (q - x) * m == 0.0;
  }

  lemma HalvedMismatches(m: real, t: real)
    requires m > 0.0
    ensures (m - t / 2.0) / m == 1.0 - t / (2.0 * m)
  {
    var q := t / (2.0 * m);
    assert q * (2.0 * m) == t;
    assert (1.0 - q) * m == m - t / 2.0;
    Quotient(1.0 - q, m, m - t / 2.0);
  }

  lemma Shortfall(jaro: real, p: real)
    ensures 1.0 - (jaro + p * 0.1 * (1.0 - jaro)) == (1.0 - jaro) * (1.0 - p / 10.0)
  {
    var d, y := 1.0 - jaro, p * 0.1;
    assert y == p / 10.0;
    assert d * (1.0 - y) == d - y * d;
    assert y * d == p * 0.1 * (1.0 - jaro);
    assert d * (1.0 - y) == (1.0 - jaro) * (1.0 - p / 10.0);
  }

  lemma BonusShortfall(jaro: real, p: nat)
    ensures 1.0 - Boosted(jaro, p) == (1.0 - jaro) * (1.0 - p as real / 10.0)
  {
    Shortfall(jaro, p as real);
  }

  /** The shape of the score of two different strings with a match between them. */
  lemma MatchedScore(r1: seq<char>, r2: seq<char>) returns (jaro: real, p: nat)
    requires r1 != r2 && r1 != [] && r2 != [] && Matched(r1, r2).0 != []
    ensures JaroWinkler(r1, r2) == Boosted(jaro, p) && 0.0 < jaro < 1.0 && p <= 4
  {
    var (s1, s2) := Matched(r1, r2);
    var t := Mismatches(s1, s2);
    p := PrefixLength(r1, r2, Min(4, Min(|r1|, |r2|)));
    jaro := Jaro(|s1|, t, |r1|, |r2|);
    assert !(|s1| == |r1| == |r2| && t == 0) by {
      if |s1| == |r1| == |r2| {
        var dist := MatchDistance(|r1|, |r2|);
        FullySelected(r1, Marks(r1, r2, dist, |r1|).0, |r1|);
        FullySelected(r2, Marks(r1, r2, dist, |r1|).1, |r2|);
        assert r1[..|r1|] == r1 && r2[..|r2|] == r2;
      }
    }
    JaroRange(|s1|, t, |r1|, |r2|);
  }

  /** A score lies in [0, 1] and is 1 exactly for equal rune sequences. */
  lemma ScoreRange(r1: seq<char>, r2: seq<char>)
    ensures 0.0 <= JaroWinkler(r1, r2) <= 1.0
    ensures JaroWinkler(r1, r2) == 1.0 <==> r1 == r2
  {
    if r1 != r2 && r1 != [] && r2 != [] && Matched(r1, r2).0 != [] {
      var jaro, p := MatchedScore(r1, r2);
      BonusRange(jaro, p);
    }
  }

  // ----- When the score is zero -----

  /** Two equal runes at the same place, or fewer than half the longer length apart. */
  ghost predicate WithinReach(r1: seq<char>, r2: seq<char>, i: int, j: int) {
    && 0 <= i < |r1| && 0 <= j < |r2| && r1[i] == r2[j]
    && (i == j || (2 * (i - j + 1) <= Max(|r1|, |r2|) && 2 * (j - i + 1) <= Max(|r1|, |r2|)))
  }

  lemma {:induction false} FindsFree(c: char, r2: seq<char>, used: seq<bool>, lo: nat, hi: int, j: nat)
    requires lo <= j <= hi < |r2| == |used| && !used[j] && r2[j] == c
    ensures FirstFree(c, r2, used, lo, hi) >= 0
    decreases j - lo
  {
    if lo < j { FindsFree(c, r2, used, lo + 1, hi, j); }
  }

  lemma {:induction false} SomeMark(r: seq<char>, m: seq<bool>, n: nat, j: nat)
    requires j < n <= |r| == |m| && m[j]
    ensures Selected(r, m, n) != []
  {
    if j < n - 1 { SomeMark(r, m, n - 1, j); }
  }

  lemma {:induction false} MarksStay(r1: seq<char>, r2: seq<char>, dist: nat, i: nat, k: nat, j: nat)
    requires i <= k <= |r1| && j < |r2| && Marks(r1, r2, dist, i).1[j]
    ensures Marks(r1, r2, dist, k).1[j]
  {
    if i < k { MarksStay(r1, r2, dist, i, k - 1, j); }
  }

  lemma {:induction false} MarksArePaired(r1: seq<char>, r2: seq<char>, i: nat)
    requires i <= |r1|
    requires forall p, q :: !WithinReach(r1, r2, p, q)
    ensures forall j :: 0 <= j < |r1| ==> !Marks(r1, r2, MatchDistance(|r1|, |r2|), i).0[j]
  {
    if i > 0 {
      var dist := MatchDistance(|r1|, |r2|);
      MarksArePaired(r1, r2, i - 1);
      var j := Partner(r1, r2, dist, i - 1, Marks(r1, r2, dist, i - 1).1);
      if j >= 0 { assert WithinReach(r1, r2, i - 1, j); }
    }
  }

  /** The score is 0 exactly when no two equal runes lie within reach of each other. */
  lemma ScoreZeroIff(r1: seq<char>, r2: seq<char>)
    requires r1 != r2
    ensures JaroWinkler(r1, r2) == 0.0 <==> forall i, j :: !WithinReach(r1, r2, i, j)
  {
    if r1 != [] && r2 != [] {
      if forall i, j :: !WithinReach(r1, r2, i, j) {
        MarksArePaired(r1, r2, |r1|);
        NothingMarked(r1, Marks(r1, r2, MatchDistance(|r1|, |r2|), |r1|).0, |r1|);
      } else {
        var i: nat, j: nat :| WithinReach(r1, r2, i, j);
        SomePairIsMarked(r1, r2, i, j);
        var jaro, p := MatchedScore(r1, r2);
        BonusRange(jaro, p);
      }
    }
  }

  /** When rune i's turn is over, some position of the second string is marked. */
  lemma TurnLeavesAMark(r1: seq<char>, r2: seq<char>, dist: nat, i: nat, j: nat) returns (p: nat)
    requires i < |r1| && j < |r2| && r1[i] == r2[j] && i - dist <= j <= i + dist
    ensures p < |r2| && Marks(r1, r2, dist, i + 1).1[p]
  {
    var b := Marks(r1, r2, dist, i).1;
    if b[j] {
      p := j;
    } else {
      FindsFree(r1[i], r2, b, Max(0, i - dist), Min(|r2| - 1, i + dist), j);
      p := Partner(r1, r2, dist, i, b);
    }
  }

  lemma SomePairIsMarked(r1: seq<char>, r2: seq<char>, i: nat, j: nat)
    requires WithinReach(r1, r2, i, j)
    ensures Selected(r1, Marks(r1, r2, MatchDistance(|r1|, |r2|), |r1|).0, |r1|) != []
  {
    var dist := MatchDistance(|r1|, |r2|);
    var p := TurnLeavesAMark(r1, r2, dist, i, j);
    MarksStay(r1, r2, dist, i + 1, |r1|, p);
    SomeMark(r2, Marks(r1, r2, dist, |r1|).1, |r2|, p);
    MarksAgree(r1, r2, dist, |r1|);
  }
}
