/** The string operations the services use, on ASCII letters and white space. */
module Text {

  function LowerChar(c: char): char {
    if 'A' <= c <= 'Z' then ((c as int) - ('A' as int) + ('a' as int)) as char else c
  }

  function Lower(s: string): string {
    seq(|s|, i requires 0 <= i < |s| => LowerChar(s[i]))
  }

  // The same character, or the same ASCII letter in the other case.
  predicate SameLetter(a: char, b: char) {
    || a == b
    || ('A' <= a <= 'Z' && b as int == a as int + 32)
    || ('A' <= b <= 'Z' && a as int == b as int + 32)
  }

  predicate SameUpToCase(a: string, b: string) {
    |a| == |b| && forall i | 0 <= i < |a| :: SameLetter(a[i], b[i])
  }

  lemma CaseIsSymmetric(a: string, b: string)
    ensures SameUpToCase(a, b) <==> SameUpToCase(b, a)
  {
    if SameUpToCase(a, b) || SameUpToCase(b, a) {
      assert forall i | 0 <= i < |a| :: SameLetter(a[i], b[i]) <==> SameLetter(b[i], a[i]);
    }
  }

  // Lower-casing keeps the length, leaves no capital letter, and changes nothing but case.
  lemma LowerMeans(s: string)
    ensures |Lower(s)| == |s| && SameUpToCase(s, Lower(s))
    ensures forall c | c in Lower(s) :: !('A' <= c <= 'Z')
    ensures Lower(Lower(s)) == Lower(s)
  {
    var t := Lower(s);
    assert forall i | 0 <= i < |s| :: t[i] == LowerChar(s[i]);
    assert forall i | 0 <= i < |s| :: Lower(t)[i] == LowerChar(t[i]);
    assert forall i | 0 <= i < |s| :: Lower(t)[i] == t[i];
  }

  lemma SameLetterExactly(a: char, b: char)
    ensures LowerChar(a) == LowerChar(b) <==> SameLetter(a, b)
  {
  }

  // Two strings are the same in lower case exactly when they differ in case only.
  lemma LowerEqualExactly(a: string, b: string)
    ensures Lower(a) == Lower(b) <==> SameUpToCase(a, b)
  {
    if SameUpToCase(a, b) {
      forall i | 0 <= i < |a| ensures Lower(a)[i] == Lower(b)[i] {
        SameLetterExactly(a[i], b[i]);
      }
      assert Lower(a) == Lower(b);
    }
    if Lower(a) == Lower(b) {
      assert |a| == |Lower(a)| == |Lower(b)| == |b|;
      forall i | 0 <= i < |a| ensures SameLetter(a[i], b[i]) {
        assert Lower(a)[i] == LowerChar(a[i]) && Lower(b)[i] == LowerChar(b[i]);
        SameLetterExactly(a[i], b[i]);
      }
    }
  }

  // The ASCII characters that strip() removes.
  predicate IsSpace(c: char) {
    c == ' ' || 9 <= (c as int) <= 13 || 28 <= (c as int) <= 31
  }

  function StripLeft(s: string): string {
    if s != [] && IsSpace(s[0]) then StripLeft(s[1..]) else s
  }

  function StripRight(s: string): string {
    if s != [] && IsSpace(s[|s| - 1]) then StripRight(s[..|s| - 1]) else s
  }

  function Strip(s: string): string {
    StripRight(StripLeft(s))
  }

  predicate EndsWith(s: string, suffix: string) {
    |suffix| <= |s| && s[|s| - |suffix|..] == suffix
  }

  predicate OccursAt(s: string, part: string, i: nat) {
    i + |part| <= |s| && s[i..i + |part|] == part
  }

  predicate Contains(s: string, part: string) {
    exists i | 0 <= i <= |s| :: OccursAt(s, part, i)
  }

  function DigitText(n: nat): char
    requires n < 10
  {
    "0123456789"[n]
  }

  function NatText(n: nat): string {
    if n < 10 then [DigitText(n)] else NatText(n / 10) + [DigitText(n % 10)]
  }

  // ---------- what these operations mean ----------

  lemma IsSpaceExactly(c: char)
    ensures IsSpace(c) <==> c in " \t\n\r" || c as int in {11, 12, 28, 29, 30, 31}
  {
  }

  predicate Spaces(s: string) {
    forall i | 0 <= i < |s| :: IsSpace(s[i])
  }

  // A string without white space at its ends.
  predicate Trimmed(s: string) {
    s != [] ==> !IsSpace(s[0]) && !IsSpace(s[|s| - 1])
  }

  lemma {:induction false} StripLeftMeans(s: string) returns (left: string)
    ensures s == left + StripLeft(s) && Spaces(left)
    ensures StripLeft(s) != [] ==> !IsSpace(StripLeft(s)[0])
  {
    if s != [] && IsSpace(s[0]) {
      var rest := StripLeftMeans(s[1..]);
      left := [s[0]] + rest;
    } else {
      left := [];
    }
  }

  lemma {:induction false} StripRightMeans(s: string) returns (right: string)
    ensures s == StripRight(s) + right && Spaces(right)
    ensures StripRight(s) != [] ==> !IsSpace(StripRight(s)[|StripRight(s)| - 1])
  {
    if s != [] && IsSpace(s[|s| - 1]) {
      var rest := StripRightMeans(s[..|s| - 1]);
      right := rest + [s[|s| - 1]];
    } else {
      right := [];
    }
  }

  // Stripping takes away white space at both ends, all of it and nothing else.
  lemma StripMeans(s: string) returns (left: string, right: string)
    ensures s == left + Strip(s) + right && Spaces(left) && Spaces(right) && Trimmed(Strip(s))
  {
    left := StripLeftMeans(s);
    var middle := StripLeft(s);
    right := StripRightMeans(middle);
    FirstStays(middle, Strip(s), right);
    assert s == left + (Strip(s) + right);
  }

  lemma FirstStays(s: string, front: string, rest: string)
    requires s == front + rest
    ensures front != [] ==> s != [] && front[0] == s[0]
  {
  }

  lemma EndsWithExactly(s: string, suffix: string)
    ensures EndsWith(s, suffix) <==> exists before: string :: s == before + suffix
  {
    if EndsWith(s, suffix) {
      assert s == s[..|s| - |suffix|] + suffix;
    }
  }

  lemma ContainsExactly(s: string, part: string)
    ensures Contains(s, part) <==> exists before: string, after: string :: s == before + part + after
  {
    if Contains(s, part) {
      var i: nat :| i <= |s| && OccursAt(s, part, i);
      assert s == s[..i] + part + s[i + |part|..];
    }
    if before: string, after: string :| s == before + part + after {
      assert OccursAt(s, part, |before|);
    }
  }

  function NatOf(s: string): nat {
    if s == [] then 0 else 10 * NatOf(s[..|s| - 1]) + DigitOf(s[|s| - 1])
  }

  function DigitOf(c: char): nat {
    if '0' <= c <= '9' then c as int - '0' as int else 0
  }

  // The decimal digits of a number determine it.
  lemma {:induction false} NatTextRoundTrip(n: nat)
    ensures NatOf(NatText(n)) == n && NatText(n) != []
  {
    assert forall d: nat | d < 10 :: DigitOf(DigitText(d)) == d;
    if n < 10 {
      assert NatText(n) == [DigitText(n)];
      assert NatText(n)[..0] == [];
    } else {
      NatTextRoundTrip(n / 10);
      assert NatText(n)[..|NatText(n)| - 1] == NatText(n / 10);
    }
  }

  lemma NatTextInjective(m: nat, n: nat)
    ensures NatText(m) == NatText(n) ==> m == n
  {
    NatTextRoundTrip(m);
    NatTextRoundTrip(n);
  }
}
