/** The string operations of Python and JavaScript that the core relies on. */
module Strings {

  /** The number of positions of s that hold a character of A. */
  function Occ(s: string, A: set<char>): nat
  {
    if |s| == 0 then 0 else (if s[0] in A then 1 else 0) + Occ(s[1..], A)
  }

  /** Occ counted from position i on; on a literal string the solver can
      evaluate this form directly. */
  function OccFrom(s: string, A: set<char>, i: nat): nat
    decreases |s| - i
  {
    if i >= |s| then 0 else (if s[i] in A then 1 else 0) + OccFrom(s, A, i + 1)
  }

  lemma {:induction false} OccFromSuffix(s: string, A: set<char>, i: nat)
    requires i <= |s|
    ensures OccFrom(s, A, i) == Occ(s[i..], A)
    decreases |s| - i
  {
    if i < |s| {
      OccFromSuffix(s, A, i + 1);
      assert s[i..][1..] == s[i + 1..];
    }
  }

  lemma {:induction false} OccConcat(a: string, b: string, A: set<char>)
    ensures Occ(a + b, A) == Occ(a, A) + Occ(b, A)
  {
    if |a| > 0 {
      assert (a + b)[1..] == a[1..] + b;
      OccConcat(a[1..], b, A);
    } else {
      assert a + b == b;
    }
  }

  /** A character occurs exactly when its count is positive. */
  lemma {:induction false} OccPositive(s: string, x: char)
    ensures Occ(s, {x}) > 0 <==> x in s
  {
    if |s| > 0 {
      OccPositive(s[1..], x);
      assert x in s <==> s[0] == x || x in s[1..];
    }
  }

  /** Counting over a union of disjoint sets adds up. */
  lemma {:induction false} OccUnion(s: string, A: set<char>, B: set<char>)
    requires A * B == {}
    ensures Occ(s, A + B) == Occ(s, A) + Occ(s, B)
  {
    if |s| > 0 {
      OccUnion(s[1..], A, B);
      assert s[0] !in A * B;
    }
  }

  /** No position holds a character of an empty set. */
  lemma {:induction false} OccNone(s: string, A: set<char>)
    requires forall j :: 0 <= j < |s| ==> s[j] !in A
    ensures Occ(s, A) == 0
  {
    if |s| > 0 {
      OccNone(s[1..], A);
    }
  }

  /** str.replace(pat, rep): every occurrence, left to right, without overlaps. */
  function ReplaceAll(s: string, pat: string, rep: string): string
    requires |pat| > 0
    decreases |s|
  {
    if |s| < |pat| then s
    else if s[..|pat|] == pat then rep + ReplaceAll(s[|pat|..], pat, rep)
    else [s[0]] + ReplaceAll(s[1..], pat, rep)
  }

  /** str.replace(pat, rep, 1): the first occurrence only. */
  function ReplaceFirst(s: string, pat: string, rep: string): string
    requires |pat| > 0
    decreases |s|
  {
    if |s| < |pat| then s
    else if s[..|pat|] == pat then rep + s[|pat|..]
    else [s[0]] + ReplaceFirst(s[1..], pat, rep)
  }

  /** Replacing the first c by r removes one c and adds the characters of r;
      without a c the string is unchanged. */
  lemma {:induction false} ReplaceFirstOcc(s: string, c: char, r: string, A: set<char>)
    ensures c !in s ==> ReplaceFirst(s, [c], r) == s
    ensures c in s ==> Occ(ReplaceFirst(s, [c], r), A) + (if c in A then 1 else 0) == Occ(s, A) + Occ(r, A)
  {
    if |s| > 0 {
      if s[0] == c {
        assert s[..1] == [c];
        OccConcat(r, s[1..], A);
      } else {
        assert s[..1] != [c];
        ReplaceFirstOcc(s[1..], c, r, A);
        assert c in s <==> c in s[1..];
        OccConcat([s[0]], ReplaceFirst(s[1..], [c], r), A);
      }
    }
  }

  /** Replacing every c by r: the characters other than c stay, and each c
      becomes the characters of r. */
  lemma {:induction false} ReplaceAllOcc(s: string, c: char, r: string, A: set<char>)
    ensures Occ(ReplaceAll(s, [c], r), A) == Occ(s, A - {c}) + Occ(s, {c}) * Occ(r, A)
  {
    if |s| > 0 {
      ReplaceAllOcc(s[1..], c, r, A);
      if s[0] == c {
        assert s[..1] == [c];
        OccConcat(r, ReplaceAll(s[1..], [c], r), A);
        var x, y := Occ(s[1..], {c}), Occ(r, A);
        assert Occ(s, {c}) == 1 + x && Occ(s, A - {c}) == Occ(s[1..], A - {c});
        assert (1 + x) * y == y + x * y;
      } else {
        assert s[..1] != [c];
        OccConcat([s[0]], ReplaceAll(s[1..], [c], r), A);
      }
    }
  }

  /** After replacing every c by a string without c, no c is left. */
  lemma ReplaceAllRemoves(s: string, c: char, r: string)
    requires c !in r
    ensures c !in ReplaceAll(s, [c], r)
  {
    ReplaceAllOcc(s, c, r, {c});
    OccPositive(s, c);
    OccPositive(r, c);
    OccNone(s, {c} - {c});
    OccPositive(ReplaceAll(s, [c], r), c);
  }

  /** A replacement that brings in no x leaves a string without x without x. */
  lemma {:induction false} ReplaceAllKeepsAbsent(s: string, pat: string, rep: string, x: char)
    requires |pat| > 0 && x !in s && x !in rep
    ensures x !in ReplaceAll(s, pat, rep)
    decreases |s|
  {
    if |s| >= |pat| {
      if s[..|pat|] == pat {
        ReplaceAllKeepsAbsent(s[|pat|..], pat, rep, x);
      } else {
        ReplaceAllKeepsAbsent(s[1..], pat, rep, x);
      }
    }
  }

  /** Replacing a character that does not occur changes nothing. */
  lemma {:induction false} ReplaceAllAbsent(s: string, c: char, r: string)
    requires c !in s
    ensures ReplaceAll(s, [c], r) == s
  {
    if |s| > 0 {
      assert s[0] in s && s[..1][0] == s[0];
      assert s[1..] == s[1..] && forall x :: x in s[1..] ==> x in s;
      ReplaceAllAbsent(s[1..], c, r);
    }
  }

  /** Replacing a single character works piece by piece. */
  lemma {:induction false} ReplaceAllConcat(a: string, b: string, c: char, r: string)
    ensures ReplaceAll(a + b, [c], r) == ReplaceAll(a, [c], r) + ReplaceAll(b, [c], r)
  {
    if |a| == 0 {
      assert a + b == b;
    } else {
      assert (a + b)[1..] == a[1..] + b;
      assert (a + b)[..1] == a[..1];
      ReplaceAllConcat(a[1..], b, c, r);
    }
  }

  /** A string with a positive count holds a counted character. */
  lemma {:induction false} OccWitness(s: string, A: set<char>) returns (j: int)
    requires Occ(s, A) > 0
    ensures 0 <= j < |s| && s[j] in A
  {
    if s[0] in A {
      j := 0;
    } else {
      var k := OccWitness(s[1..], A);
      j := k + 1;
    }
  }

  // Decimal numerals, for the ids str(i).

  function DigitChar(d: nat): char
    requires d < 10
  {
    "0123456789"[d]
  }

  function DigitValue(ch: char): nat
  {
    if '0' <= ch <= '9' then (ch as int - '0' as int) as nat else 0
  }

  /** str(n) for a natural number n. */
  function NatToString(n: nat): (s: string)
    ensures |s| > 0
    decreases n
  {
    if n < 10 then [DigitChar(n)] else NatToString(n / 10) + [DigitChar(n % 10)]
  }

  /** int(s) for a string of decimal digits. */
  function StringToNat(s: string): nat
    decreases |s|
  {
    if |s| == 0 then 0 else 10 * StringToNat(s[..|s| - 1]) + DigitValue(s[|s| - 1])
  }

  lemma DigitRoundTrip(d: nat)
    requires d < 10
    ensures DigitValue(DigitChar(d)) == d
  {
  }

  /** int(str(n)) == n, hence str is injective. */
  lemma {:induction false} NatStringRoundTrip(n: nat)
    ensures StringToNat(NatToString(n)) == n
    decreases n
  {
    DigitRoundTrip(n % 10);
    if n >= 10 {
      NatStringRoundTrip(n / 10);
      var s := NatToString(n);
      assert s[..|s| - 1] == NatToString(n / 10);
    }
  }

  /** Different numbers have different numerals. */
  lemma NatToStringInjective(m: nat, n: nat)
    requires m != n
    ensures NatToString(m) != NatToString(n)
  {
    NatStringRoundTrip(m);
    NatStringRoundTrip(n);
  }
}
