/** Letters of the Playfair cipher: the 25-symbol alphabet (I and J merged) and the
    normalisation shared by the key and the text: keep ASCII letters only, upper-case
    them and map J to I. */
module Letters {

  /** The Playfair alphabet: A to Z without J, in alphabetical order. */
  const Alphabet: string := "ABCDEFGHIKLMNOPQRSTUVWXYZ"

  /** The filler letter used to break doubled letters and pad an odd tail. */
  const Filler: char := 'X'

  predicate IsAsciiLetter(c: char) {
    'a' <= c <= 'z' || 'A' <= c <= 'Z'
  }

  /** A symbol of the Playfair alphabet. */
  predicate IsSymbol(c: char) {
    'A' <= c <= 'Z' && c != 'J'
  }

  predicate AllSymbols(s: string) {
    forall i :: 0 <= i < |s| ==> IsSymbol(s[i])
  }

  ghost predicate Distinct(s: string) {
    forall i, j :: 0 <= i < j < |s| ==> s[i] != s[j]
  }

  /** Strictly increasing character codes: alphabetical order without repeats. */
  ghost predicate Increasing(s: string) {
    forall i :: 0 < i < |s| ==> s[i - 1] < s[i]
  }

  function Elems(s: string): set<char> {
    set c | c in s
  }

  /** The members of Alphabet are exactly the symbols. */
  lemma AlphabetSymbols(c: char)
    ensures c in Alphabet <==> IsSymbol(c)
  {
  }

  lemma AlphabetIncreasing()
    ensures Increasing(Alphabet)
  {
  }

  lemma {:induction false} IncreasingBelowLast(s: string, i: nat)
    requires Increasing(s) && i < |s| - 1
    ensures s[i] < s[|s| - 1]
    decreases |s| - i
  {
    if i < |s| - 2 {
      IncreasingBelowLast(s, i + 1);
    }
  }

  lemma {:induction false} IncreasingDistinct(s: string)
    requires Increasing(s)
    ensures Distinct(s)
  {
    if |s| > 1 {
      var p := s[..|s| - 1];
      assert Increasing(p);
      IncreasingDistinct(p);
      forall i | 0 <= i < |s| - 1
        ensures s[i] < s[|s| - 1]
      {
        IncreasingBelowLast(s, i);
      }
    }
  }

  lemma DistinctSnoc(s: string, c: char)
    requires Distinct(s) && c !in s
    ensures Distinct(s + [c])
  {
  }

  lemma IncreasingSnoc(s: string, c: char)
    requires Increasing(s) && (s != [] ==> s[|s| - 1] < c)
    ensures Increasing(s + [c])
  {
  }

  /** An increasing string is determined by its set of characters. */
  lemma {:induction false} IncreasingUnique(x: string, y: string)
    requires Increasing(x) && Increasing(y)
    requires forall c :: c in x <==> c in y
    ensures x == y
    decreases |x|
  {
    assert x != [] ==> x[0] in x;
    assert y != [] ==> y[0] in y;
    if x != [] && y != [] {
      IncreasingFirst(x);
      IncreasingFirst(y);
      var k :| 0 <= k < |y| && y[k] == x[0];
      var l :| 0 <= l < |x| && x[l] == y[0];
      assert x[0] == y[0];
      var x' := x[1..];
      var y' := y[1..];
      forall c
        ensures c in x' <==> c in y'
      {
        TailMembers(x, c);
        TailMembers(y, c);
      }
      IncreasingUnique(x', y');
      assert x == [x[0]] + x' && y == [y[0]] + y';
    }
  }

  /** The tail of an increasing string holds its characters other than the first. */
  lemma TailMembers(x: string, c: char)
    requires x != [] && Increasing(x)
    ensures Increasing(x[1..])
    ensures c in x[1..] <==> c in x && c != x[0]
  {
    IncreasingFirst(x);
    if c in x[1..] {
      var k :| 0 <= k < |x| - 1 && x[1..][k] == c;
      assert x[k + 1] == c;
    }
    if c in x && c != x[0] {
      var l :| 0 <= l < |x| && x[l] == c;
      assert x[1..][l - 1] == c;
    }
  }

  /** In an increasing string the first character is below every other one. */
  lemma IncreasingFirst(s: string)
    requires s != []
    ensures Increasing(s) ==> forall i :: 0 < i < |s| ==> s[0] < s[i]
  {
    if Increasing(s) {
      forall i | 0 < i < |s|
        ensures s[0] < s[i]
      {
        IncreasingAboveFirst(s, i);
      }
    }
  }

  lemma {:induction false} IncreasingAboveFirst(s: string, i: nat)
    requires Increasing(s) && 0 < i < |s|
    ensures s[0] < s[i]
    decreases i
  {
    if i > 1 {
      IncreasingAboveFirst(s, i - 1);
    }
  }

  /** The alphabet holds 25 distinct symbols. */
  lemma AlphabetDistinct()
    ensures |Alphabet| == 25 && Distinct(Alphabet)
  {
    AlphabetIncreasing();
    IncreasingDistinct(Alphabet);
  }

  /** A string without repeats has as many distinct elements as characters. */
  lemma {:induction false} DistinctCard(s: string)
    requires Distinct(s)
    ensures |Elems(s)| == |s|
  {
    if s != [] {
      var p := s[..|s| - 1];
      var c := s[|s| - 1];
      assert Distinct(p);
      DistinctCard(p);
      assert s == p + [c];
      assert Elems(s) == Elems(p) + {c};
      assert c !in Elems(p);
    }
  }

  /** A string whose characters all occur in a string of symbols is made of symbols. */
  lemma AllSymbolsSubset(d: string, s: string)
    requires AllSymbols(s) && forall c :: c in d ==> c in s
    ensures AllSymbols(d)
  {
    forall i | 0 <= i < |d|
      ensures IsSymbol(d[i])
    {
      assert d[i] in d;
    }
  }

  /** Upper-case one ASCII letter and map J to I (str.upper, then replace('J', 'I')). */
  function Canon(c: char): (u: char)
    requires IsAsciiLetter(c)
    ensures IsSymbol(u)
    ensures IsSymbol(c) ==> u == c
    ensures c == 'j' || c == 'J' ==> u == 'I'
    ensures 'a' <= c <= 'z' && c != 'j' ==> u as int == c as int - 32
  {
    var upper := if 'a' <= c <= 'z' then (c as int - 'a' as int + 'A' as int) as char else c;
    if upper == 'J' then 'I' else upper
  }

  /** Drop every character that is not an ASCII letter, upper-case the rest and map J to I. */
  function Normalize(s: string): (t: string)
    ensures AllSymbols(t)
    decreases |s|
  {
    if s == [] then []
    else (if IsAsciiLetter(s[0]) then [Canon(s[0])] else []) + Normalize(s[1..])
  }

  /** Normalize keeps at most the letters of s, and is empty exactly when s has no ASCII
      letter. */
  lemma {:induction false} NormalizeLength(s: string)
    ensures |Normalize(s)| <= |s|
    ensures Normalize(s) == [] <==> forall i :: 0 <= i < |s| ==> !IsAsciiLetter(s[i])
    decreases |s|
  {
    if s != [] {
      NormalizeLength(s[1..]);
      assert forall i :: 1 <= i < |s| ==> s[i] == s[1..][i - 1];
    }
  }

  /** Normalisation works character by character, so it distributes over concatenation. */
  lemma {:induction false} NormalizeAppend(a: string, b: string)
    ensures Normalize(a + b) == Normalize(a) + Normalize(b)
    decreases |a|
  {
    if a == [] {
      assert a + b == b;
    } else {
      var head := if IsAsciiLetter(a[0]) then [Canon(a[0])] else [];
      assert (a + b)[0] == a[0];
      assert (a + b)[1..] == a[1..] + b;
      assert Normalize(a + b) == head + Normalize(a[1..] + b);
      NormalizeAppend(a[1..], b);
      assert head + (Normalize(a[1..]) + Normalize(b)) == (head + Normalize(a[1..])) + Normalize(b);
    }
  }

  /** A string of symbols is already normal. */
  lemma {:induction false} NormalizeSymbols(s: string)
    requires AllSymbols(s)
    ensures Normalize(s) == s
    decreases |s|
  {
    if s != [] {
      NormalizeSymbols(s[1..]);
    }
  }

  /** Normalisation is idempotent. */
  lemma NormalizeIdempotent(s: string)
    ensures Normalize(Normalize(s)) == Normalize(s)
  {
    NormalizeSymbols(Normalize(s));
  }
}
