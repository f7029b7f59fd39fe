/** The few string operations the LRC code leans on. Strings are sequences of runes. */
module Text {

  /** Unicode White_Space, as strings.TrimSpace has it. */
  predicate IsSpace(c: char) {
    || c == '\t' || c == '\n' || c == '\U{0B}' || c == '\U{0C}' || c == '\r' || c == ' '
    || c == '\U{85}' || c == '\U{A0}' || c == '\U{1680}' || '\U{2000}' <= c <= '\U{200A}'
    || c == '\U{2028}' || c == '\U{2029}' || c == '\U{202F}' || c == '\U{205F}' || c == '\U{3000}'
  }

  function TrimLeft(s: string): string {
    if s != "" && IsSpace(s[0]) then TrimLeft(s[1..]) else s
  }

  function TrimRight(s: string): string {
    if s != "" && IsSpace(s[|s| - 1]) then TrimRight(s[..|s| - 1]) else s
  }

  function TrimSpace(s: string): string {
    TrimRight(TrimLeft(s))
  }

  /** strings.TrimRight(s, "\r"). */
  function TrimRightCR(s: string): string {
    if s != "" && s[|s| - 1] == '\r' then TrimRightCR(s[..|s| - 1]) else s
  }

  /** A string without space at either end is its own trimming. */
  lemma TrimIsIdentity(s: string)
    requires s != "" && !IsSpace(s[0]) && !IsSpace(s[|s| - 1])
    ensures TrimSpace(s) == s
  {
  }

  lemma {:induction false} TrimLeftPrefix(a: string, b: string)
    ensures TrimLeft(a) != "" ==> TrimLeft(a + b) == TrimLeft(a) + b
    ensures TrimLeft(a) == "" ==> TrimLeft(a + b) == TrimLeft(b)
  {
    if a == "" {
      assert a + b == b;
    } else if IsSpace(a[0]) {
      assert (a + b)[1..] == a[1..] + b;
      TrimLeftPrefix(a[1..], b);
    } else {
      assert (a + b)[0] == a[0];
    }
  }

  lemma TrimRightSpace(a: string, c: char)
    requires IsSpace(c)
    ensures TrimRight(a + [c]) == TrimRight(a)
  {
    assert (a + [c])[..|a|] == a;
  }

  /** A carriage return at the end is space, so dropping it first changes nothing. */
  lemma TrimBeforeCR(init: string)
    ensures TrimSpace(init + ['\r']) == TrimSpace(init)
  {
    TrimLeftPrefix(init, ['\r']);
    if TrimLeft(init) != "" {
      TrimRightSpace(TrimLeft(init), '\r');
    } else {
      assert ['\r'][1..] == "";
      assert TrimLeft(['\r']) == "";
    }
  }

  lemma {:induction false} TrimAfterCR(s: string)
    ensures TrimSpace(TrimRightCR(s)) == TrimSpace(s)
  {
    if s != "" && s[|s| - 1] == '\r' {
      var init := s[..|s| - 1];
      TrimAfterCR(init);
      assert s == init + ['\r'];
      TrimBeforeCR(init);
    }
  }

  lemma {:induction false} TrimRightCRPrefix(a: string, b: string)
    requires a != "" && a[|a| - 1] != '\r'
    ensures TrimRightCR(a + b) == a + TrimRightCR(b)
  {
    if b != "" && b[|b| - 1] == '\r' {
      assert (a + b)[..|a + b| - 1] == a + b[..|b| - 1];
      TrimRightCRPrefix(a, b[..|b| - 1]);
    } else if b == "" {
      assert a + b == a;
    }
  }

  /** First position of c, or the length. */
  function IndexOf(s: string, c: char): (i: nat)
    ensures i <= |s| && (i < |s| ==> s[i] == c)
    ensures c !in s[..i]
  {
    if s == "" || s[0] == c then 0
    else
      var i := IndexOf(s[1..], c);
      assert s[..i + 1] == [s[0]] + s[1..][..i];
      i + 1
  }

  lemma {:induction false} IndexAfter(a: string, c: char, b: string)
    requires c !in a
    ensures IndexOf(a + [c] + b, c) == |a|
  {
    if a != "" {
      assert a[0] != c;
      assert (a + [c] + b)[1..] == a[1..] + [c] + b;
      IndexAfter(a[1..], c, b);
    }
  }

  lemma {:induction false} IndexAbsent(s: string, c: char)
    requires c !in s
    ensures IndexOf(s, c) == |s|
  {
    if s != "" {
      assert s[0] != c;
      IndexAbsent(s[1..], c);
    }
  }
}
