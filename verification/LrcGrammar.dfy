/** Which lines the synced-lyrics parser recognises and what it reads in them, character by character
    (internal/petitlyrics/client.go, lrcLineRe, parseLRC and normalizeHundredths). */
module LrcGrammar {
  import opened Prelude
  import opened Text
  import opened Lrc

  // ----- Numbers -----

  /** The number a run of digits spells. */
  function Number(s: string): nat
    requires forall i :: 0 <= i < |s| ==> IsDigit(s[i])
  {
    if s == "" then 0 else Number(s[..|s| - 1]) * 10 + DigitValue(s[|s| - 1])
  }

  function Pow10(n: nat): (p: nat)
    ensures p > 0
  {
    if n == 0 then 1 else 10 * Pow10(n - 1)
  }

  lemma NumberStep(s: string, c: char)
    requires (forall i :: 0 <= i < |s| ==> IsDigit(s[i])) && IsDigit(c)
    ensures Number(s + [c]) == Number(s) * 10 + DigitValue(c)
  {
    assert (s + [c])[..|s|] == s;
  }

  lemma NumberGrows(s: string, from: nat, n: nat)
    requires from + n < |s| && forall i :: from <= i <= from + n ==> IsDigit(s[i])
    ensures Number(s[from..from + n + 1]) == Number(s[from..from + n]) * 10 + DigitValue(s[from + n])
  {
    assert s[from..from + n + 1] == s[from..from + n] + [s[from + n]];
    NumberStep(s[from..from + n], s[from + n]);
  }

  lemma PowersOfTen()
    ensures Pow10(0) == 1 && Pow10(1) == 10 && Pow10(2) == 100 && Pow10(3) == 1000
  {
    assert Pow10(3) == 10 * Pow10(2) == 100 * Pow10(1) == 1000 * Pow10(0);
  }

  lemma OneSpelled(s: string, from: nat)
    requires from < |s| && IsDigit(s[from])
    ensures Number(s[from..from + 1]) == DigitValue(s[from])
  {
    assert s[from..from] == "";
    NumberGrows(s, from, 0);
  }

  lemma TwoSpelled(s: string, from: nat)
    requires from + 1 < |s| && IsDigit(s[from]) && IsDigit(s[from + 1])
    ensures Number(s[from..from + 2]) == TwoDigits(s[from], s[from + 1])
  {
    OneSpelled(s, from);
    NumberGrows(s, from, 1);
  }

  lemma FloorOfThousandths(b: int, c: int)
    requires 0 <= c <= 9
    ensures (10 * b + c) * 100 / 1000 == b
  {
  }

  lemma Thousandths(s: string, from: nat)
    requires from + 2 < |s| && IsDigit(s[from]) && IsDigit(s[from + 1]) && IsDigit(s[from + 2])
    ensures Number(s[from..from + 3]) * 100 / 1000 == TwoDigits(s[from], s[from + 1])
  {
    TwoSpelled(s, from);
    NumberGrows(s, from, 2);
    FloorOfThousandths(TwoDigits(s[from], s[from + 1]), DigitValue(s[from + 2]));
  }

  /** Up to three digits after the point: the fraction of a second they spell, in whole hundredths,
      rounded down. */
  lemma HundredthsOfFraction(s: string, from: nat, n: nat)
    requires n <= 3 && from + n <= |s| && forall i :: from <= i < from + n ==> IsDigit(s[i])
    ensures Hundredths(s, from, n) == Number(s[from..from + n]) * 100 / Pow10(n)
  {
    PowersOfTen();
    match n
    case 0 =>
    case 1 => OneSpelled(s, from);
    case 2 => TwoSpelled(s, from);
    case _ => Thousandths(s, from);
  }

  // ----- Lines -----

  predicate DigitsAt(s: string, from: nat, n: nat) {
    from + n <= |s| && forall i :: from <= i < from + n ==> IsDigit(s[i])
  }

  /** A bracket, one or two digits, a colon, two digits, then a point or a colon with one to three digits
      or nothing (f == 0), and the closing bracket. */
  predicate Timestamped(s: string, a: nat, f: nat) {
    && 1 <= a <= 2 && f <= 3 && a + 5 <= |s|
    && s[0] == '[' && DigitsAt(s, 1, a) && s[a + 1] == ':' && DigitsAt(s, a + 2, 2)
    && if f == 0 then s[a + 4] == ']'
       else s[a + 4] in {'.', ':'} && DigitsAt(s, a + 5, f) && a + 5 + f < |s| && s[a + 5 + f] == ']'
  }

  /** What such a line says. */
  function Reading(s: string, a: nat, f: nat): Line
    requires Timestamped(s, a, f)
  {
    if f == 0 then Line(TrimSpace(s[a + 5..]), Time(Number(s[1..a + 1]), Number(s[a + 2..a + 4]), 0))
    else
      Line(TrimSpace(s[a + 6 + f..]),
           Time(Number(s[1..a + 1]), Number(s[a + 2..a + 4]), Number(s[a + 5..a + 5 + f]) * 100 / Pow10(f)))
  }

  lemma {:induction false} RunIs(s: string, from: nat, max: nat, n: nat)
    requires n <= max && DigitsAt(s, from, n)
    requires n < max && from + n < |s| ==> !IsDigit(s[from + n])
    ensures DigitRun(s, from, max) == n
    decreases n
  {
    if n > 0 { RunIs(s, from + 1, max - 1, n - 1); }
  }

  lemma MinutesSpelled(s: string, a: nat)
    requires 1 <= a <= 2 && DigitsAt(s, 1, a)
    ensures Number(s[1..a + 1]) == if a == 1 then DigitValue(s[1]) else TwoDigits(s[1], s[2])
  {
    if a == 1 { OneSpelled(s, 1); } else { TwoSpelled(s, 1); }
  }

  lemma RunsAre(s: string, a: nat, f: nat)
    requires Timestamped(s, a, f)
    ensures DigitRun(s, 1, 2) == a && DigitRun(s, a + 2, 2) == 2
    ensures f > 0 ==> DigitRun(s, a + 5, 3) == f
  {
    RunIs(s, 1, 2, a);
    RunIs(s, a + 2, 2, 2);
    if f > 0 { RunIs(s, a + 5, 3, f); }
  }

  lemma WholeSecondsMatch(s: string, a: nat)
    requires Timestamped(s, a, 0)
    ensures MatchLine(s) == Some(Reading(s, a, 0))
  {
    RunsAre(s, a, 0);
    MinutesSpelled(s, a);
    TwoSpelled(s, a + 2);
  }

  lemma FractionsMatch(s: string, a: nat, f: nat)
    requires Timestamped(s, a, f) && f > 0
    ensures MatchLine(s) == Some(Reading(s, a, f))
  {
    RunsAre(s, a, f);
    MinutesSpelled(s, a);
    TwoSpelled(s, a + 2);
    HundredthsOfFraction(s, a + 5, f);
  }

  lemma TimestampedMatches(s: string, a: nat, f: nat)
    requires Timestamped(s, a, f)
    ensures MatchLine(s) == Some(Reading(s, a, f))
  {
    if f == 0 { WholeSecondsMatch(s, a); } else { FractionsMatch(s, a, f); }
  }

  lemma MatchedIsTimestamped(s: string) returns (a: nat, f: nat)
    requires MatchLine(s).Some?
    ensures Timestamped(s, a, f)
  {
    a := DigitRun(s, 1, 2);
    f := if s[a + 4] == ']' then 0 else DigitRun(s, a + 5, 3);
  }

  /** The parser recognises exactly the lines of that form, and reads their numbers off in base ten. */
  lemma RecognisedIff(s: string, line: Line)
    ensures MatchLine(s) == Some(line) <==> exists a, f :: Timestamped(s, a, f) && line == Reading(s, a, f)
  {
    if MatchLine(s) == Some(line) {
      var a, f := MatchedIsTimestamped(s);
      TimestampedMatches(s, a, f);
    }
    if a, f :| Timestamped(s, a, f) && line == Reading(s, a, f) {
      TimestampedMatches(s, a, f);
    }
  }
}
