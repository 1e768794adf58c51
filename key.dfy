/** The key schedule (prepare_key): a key string becomes the canonical 25-letter key
    sequence, the key's own letters first (each once, in order of first occurrence),
    then the unused alphabet letters in alphabetical order. */
module KeySchedule {
  import opened Letters

  /** Index of the first occurrence of c in s. */
  function FirstIndex(s: string, c: char): (i: nat)
    requires c in s
    ensures i < |s| && s[i] == c && c !in s[..i]
  {
    if s[0] == c then 0 else 1 + FirstIndex(s[1..], c)
  }

  /** The first occurrence is the only index before which c does not occur. */
  lemma FirstIndexUnique(s: string, c: char, i: nat)
    requires i < |s| && s[i] == c && c !in s[..i]
    ensures FirstIndex(s, c) == i
  {
  }

  /** First-occurrence deduplication, scanning left to right: a character is kept
      the first time it is met and dropped afterwards. */
  function Dedup(s: string): string
    decreases |s|
  {
    if s == [] then []
    else
      var d := Dedup(s[..|s| - 1]);
      if s[|s| - 1] in d then d else d + [s[|s| - 1]]
  }

  /** Dedup keeps every character of s, and each only once. */
  lemma {:induction false} DedupFacts(s: string)
    ensures Distinct(Dedup(s))
    ensures forall c :: c in Dedup(s) <==> c in s
    decreases |s|
  {
    if s != [] {
      var p := s[..|s| - 1];
      DedupFacts(p);
      assert s == p + [s[|s| - 1]];
    }
  }

  /** Dedup lists the distinct characters of s in the order of their first occurrence. */
  lemma {:induction false} DedupOrder(s: string)
    ensures forall i, j :: 0 <= i < j < |Dedup(s)| ==>
              Dedup(s)[i] in s && Dedup(s)[j] in s && FirstIndex(s, Dedup(s)[i]) < FirstIndex(s, Dedup(s)[j])
    decreases |s|
  {
    if s == [] {
      assert Dedup(s) == [];
    } else {
      var p := s[..|s| - 1];
      var c := s[|s| - 1];
      var dp := Dedup(p);
      DedupFacts(p);
      DedupOrder(p);
      forall x | x in dp
        ensures x in s && FirstIndex(s, x) == FirstIndex(p, x)
      {
        FirstIndexPrefix(s, x);
      }
      if c in dp {
        assert Dedup(s) == dp;
        forall i, j | 0 <= i < j < |dp|
          ensures dp[i] in s && dp[j] in s && FirstIndex(s, dp[i]) < FirstIndex(s, dp[j])
        {
          assert dp[i] in dp && dp[j] in dp;
        }
      } else {
        assert c !in p;
        FirstIndexUnique(s, c, |s| - 1);
        var d := Dedup(s);
        assert d == dp + [c];
        forall i, j | 0 <= i < j < |d|
          ensures d[i] in s && d[j] in s && FirstIndex(s, d[i]) < FirstIndex(s, d[j])
        {
          assert d[i] == dp[i] && dp[i] in dp;
          if j < |dp| {
            assert d[j] == dp[j] && dp[j] in dp;
          }
        }
      }
    }
  }

  /** A character of the prefix s[..|s| - 1] has the same first index in s. */
  lemma FirstIndexPrefix(s: string, x: char)
    requires s != [] && x in s[..|s| - 1]
    ensures x in s && FirstIndex(s, x) == FirstIndex(s[..|s| - 1], x)
  {
    var p := s[..|s| - 1];
    var k := FirstIndex(p, x);
    assert s[..k] == p[..k];
    FirstIndexUnique(s, x, k);
  }

  /** A string without repeats is its own deduplication. */
  lemma {:induction false} DedupDistinct(s: string)
    requires Distinct(s)
    ensures Dedup(s) == s
    decreases |s|
  {
    if s != [] {
      var p := s[..|s| - 1];
      assert Distinct(p);
      DedupDistinct(p);
      assert s[|s| - 1] !in p;
      assert p + [s[|s| - 1]] == s;
    }
  }

  /** The letters of a that are not in seen, in the order of a. */
  function Remaining(a: string, seen: set<char>): string
    decreases |a|
  {
    if a == [] then []
    else
      var r := Remaining(a[..|a| - 1], seen);
      if a[|a| - 1] in seen then r else r + [a[|a| - 1]]
  }

  /** Remaining keeps exactly the letters of a outside seen, and keeps a's lack of
      repeats and its alphabetical order. */
  lemma {:induction false} RemainingFacts(a: string, seen: set<char>)
    ensures forall c :: c in Remaining(a, seen) <==> c in a && c !in seen
    ensures Distinct(a) ==> Distinct(Remaining(a, seen))
    ensures Increasing(a) ==> Increasing(Remaining(a, seen))
    decreases |a|
  {
    if a != [] {
      var p := a[..|a| - 1];
      var c := a[|a| - 1];
      var r := Remaining(p, seen);
      assert a == p + [c];
      assert Remaining(a, seen) == if c in seen then r else r + [c];
      RemainingFacts(p, seen);
      if c !in seen {
        if Distinct(a) {
          assert Distinct(p) && c !in p;
          DistinctSnoc(r, c);
        }
        if Increasing(a) {
          assert Increasing(p);
          IncreasingLast(a);
          if r != [] {
            assert r[|r| - 1] in r;
          }
          IncreasingSnoc(r, c);
        }
      } else {
        assert Distinct(a) ==> Distinct(p);
        assert Increasing(a) ==> Increasing(p);
      }
    }
  }

  /** Nothing remains when every letter has been seen. */
  lemma RemainingAllSeen(a: string, seen: set<char>)
    requires forall c :: c in a ==> c in seen
    ensures Remaining(a, seen) == []
  {
  }

  /** Everything remains when no letter has been seen. */
  lemma {:induction false} RemainingNone(a: string, seen: set<char>)
    requires forall c :: c in a ==> c !in seen
    ensures Remaining(a, seen) == a
    decreases |a|
  {
    if a != [] {
      var p := a[..|a| - 1];
      assert a == p + [a[|a| - 1]];
      assert forall c :: c in p ==> c in a;
      RemainingNone(p, seen);
    }
  }

  /** One more character for Dedup: kept when new, dropped when seen before. */
  lemma DedupSnoc(s: string, ch: char)
    ensures Dedup(s + [ch]) == if ch in Dedup(s) then Dedup(s) else Dedup(s) + [ch]
  {
    assert (s + [ch])[..|s|] == s;
  }

  /** One more letter for Remaining: appended unless seen. */
  lemma RemainingSnoc(a: string, ch: char, seen: set<char>)
    ensures Remaining(a + [ch], seen) == if ch in seen then Remaining(a, seen) else Remaining(a, seen) + [ch]
  {
    assert (a + [ch])[..|a|] == a;
  }

  lemma RemainingPrefix(a: string, i: nat, seen: set<char>)
    requires i < |a|
    ensures Remaining(a[..i + 1], seen) ==
      if a[i] in seen then Remaining(a[..i], seen) else Remaining(a[..i], seen) + [a[i]]
  {
    assert a[..i + 1] == a[..i] + [a[i]];
    RemainingSnoc(a[..i], a[i], seen);
  }

  /** Remaining works letter by letter, so it distributes over concatenation. */
  lemma {:induction false} RemainingAppend(a: string, b: string, seen: set<char>)
    ensures Remaining(a + b, seen) == Remaining(a, seen) + Remaining(b, seen)
    decreases |b|
  {
    if b == [] {
      assert a + b == a;
    } else {
      var p := b[..|b| - 1];
      var c := b[|b| - 1];
      var tail := if c in seen then [] else [c];
      assert b == p + [c];
      assert a + b == (a + p) + [c];
      calc {
        Remaining(a + b, seen);
        Remaining((a + p) + [c], seen);
        { RemainingSnoc(a + p, c, seen); }
        Remaining(a + p, seen) + tail;
        { RemainingAppend(a, p, seen); }
        (Remaining(a, seen) + Remaining(p, seen)) + tail;
        Remaining(a, seen) + (Remaining(p, seen) + tail);
        { RemainingSnoc(p, c, seen); }
        Remaining(a, seen) + Remaining(b, seen);
      }
    }
  }

  /** Deduplicating a + b keeps the deduplicated a, followed by the letters of b that do
      not occur in a, in the order of their first occurrence in b. */
  lemma {:induction false} DedupAppend(a: string, b: string)
    ensures Dedup(a + b) == Dedup(a) + Remaining(Dedup(b), Elems(a))
    decreases |b|
  {
    if b == [] {
      assert a + b == a;
    } else {
      var p := b[..|b| - 1];
      var c := b[|b| - 1];
      assert b == p + [c];
      assert a + b == (a + p) + [c];
      DedupAppend(a, p);
      DedupAppendStep(a, p, c);
    }
  }

  /** One more letter c of b: the first loop keeps it after a + p exactly when the
      deduplication of p + [c] keeps it and a does not contain it. */
  lemma DedupAppendStep(a: string, p: string, c: char)
    requires Dedup(a + p) == Dedup(a) + Remaining(Dedup(p), Elems(a))
    ensures Dedup((a + p) + [c]) == Dedup(a) + Remaining(Dedup(p + [c]), Elems(a))
  {
    var seen := Elems(a);
    var da, dp, d := Dedup(a), Dedup(p), Dedup(a + p);
    var r := Remaining(dp, seen);
    assert c in dp <==> c in p by { DedupFacts(p); }
    assert c in d <==> c in a + p by { DedupFacts(a + p); }
    DedupSnoc(a + p, c);
    DedupSnoc(p, c);
    if c in p {
      assert Dedup((a + p) + [c]) == d && Dedup(p + [c]) == dp;
    } else {
      assert Dedup(p + [c]) == dp + [c];
      RemainingSnoc(dp, c, seen);
      if c in a {
        assert Dedup((a + p) + [c]) == d;
      } else {
        assert Dedup((a + p) + [c]) == (da + r) + [c];
        assert (da + r) + [c] == da + (r + [c]);
      }
    }
  }

  /** Appending repeat-free letters that all occurred before leaves the deduplication
      alone; appending ones that are all new extends it by them. */
  lemma DedupExtend(p: string, b: string)
    requires Distinct(b)
    ensures (forall c :: c in b ==> c in p) ==> Dedup(p + b) == Dedup(p)
    ensures (forall c :: c in b ==> c !in p) ==> Dedup(p + b) == Dedup(p) + b
  {
    DedupAppend(p, b);
    DedupDistinct(b);
    if forall c :: c in b ==> c in p {
      RemainingAllSeen(b, Elems(p));
      assert Dedup(p) + [] == Dedup(p);
    }
    if forall c :: c in b ==> c !in p {
      RemainingNone(b, Elems(p));
    }
  }

  /** In an increasing string the last character is above every other one. */
  lemma IncreasingLast(a: string)
    requires a != []
    ensures Increasing(a) ==> forall i :: 0 <= i < |a| - 1 ==> a[i] < a[|a| - 1]
  {
    if Increasing(a) {
      forall i | 0 <= i < |a| - 1
        ensures a[i] < a[|a| - 1]
      {
        IncreasingBelowLast(a, i);
      }
    }
  }

  /** The canonical key sequence of a key string. */
  function KeySequence(key: string): (ks: string)
    ensures |ks| == 25 && Distinct(ks)
    ensures forall c :: c in ks <==> IsSymbol(c)
    ensures AllSymbols(ks)
  {
    var d := Dedup(Normalize(key));
    var ks := d + Remaining(Alphabet, Elems(d));
    DedupFacts(Normalize(key));
    AllSymbolsSubset(d, Normalize(key));
    KeySequenceFacts(d);
    ks
  }

  /** Completing a repeat-free string of symbols with the unused alphabet letters
      gives 25 distinct symbols, every symbol among them. */
  lemma KeySequenceFacts(d: string)
    requires Distinct(d) && AllSymbols(d)
    ensures var ks := d + Remaining(Alphabet, Elems(d));
      |ks| == 25 && Distinct(ks) && (forall c :: c in ks <==> IsSymbol(c)) && AllSymbols(ks)
  {
    var r := Remaining(Alphabet, Elems(d));
    var ks := d + r;
    AlphabetDistinct();
    RemainingFacts(Alphabet, Elems(d));
    forall c
      ensures c in ks <==> IsSymbol(c)
    {
      AlphabetSymbols(c);
    }
    forall i, j | 0 <= i < j < |ks|
      ensures ks[i] != ks[j]
    {
      if j >= |d| && i < |d| {
        assert ks[j] in r;
        assert ks[i] in Elems(d);
      } else if i >= |d| {
        assert ks[i] == r[i - |d|] && ks[j] == r[j - |d|];
      }
    }
    forall i | 0 <= i < |ks|
      ensures IsSymbol(ks[i])
    {
      assert ks[i] in ks;
    }
    DistinctCard(ks);
    DistinctCard(Alphabet);
    assert Elems(ks) == Elems(Alphabet) by {
      forall c
        ensures c in Elems(ks) <==> c in Elems(Alphabet)
      {
        AlphabetSymbols(c);
      }
    }
  }

  /** The key sequence starts with the key's own letters, deduplicated; the rest are
      the other alphabet letters in alphabetical order. */
  lemma KeySequenceShape(key: string)
    ensures var d := Dedup(Normalize(key));
      KeySequence(key)[..|d|] == d &&
      Increasing(KeySequence(key)[|d|..]) &&
      forall c :: c in KeySequence(key)[|d|..] <==> IsSymbol(c) && c !in Normalize(key)
  {
    var d := Dedup(Normalize(key));
    var r := Remaining(Alphabet, Elems(d));
    assert KeySequence(key) == d + r;
    assert KeySequence(key)[..|d|] == d;
    assert KeySequence(key)[|d|..] == r;
    AlphabetIncreasing();
    RemainingFacts(Alphabet, Elems(d));
    DedupFacts(Normalize(key));
    forall c
      ensures c in r <==> IsSymbol(c) && c !in Normalize(key)
    {
      AlphabetSymbols(c);
    }
  }

  /** The key sequence is the deduplicated normalised key followed by the one increasing
      string of the symbols the key does not use. */
  lemma KeySequenceFrom(key: string, d: string, rest: string)
    requires Dedup(Normalize(key)) == d
    requires Increasing(rest) && forall c :: c in rest <==> IsSymbol(c) && c !in Normalize(key)
    ensures KeySequence(key) == d + rest
  {
    KeySequenceShape(key);
    var ks := KeySequence(key);
    IncreasingUnique(ks[|d|..], rest);
    assert ks == ks[..|d|] + ks[|d|..];
  }

  /** Every alphabet letter occurs in a string holding every symbol. */
  lemma AlphabetInKeySequence(ks: string)
    requires forall c :: IsSymbol(c) ==> c in ks
    ensures forall c :: c in Alphabet ==> c in Elems(ks)
  {
    forall c | c in Alphabet
      ensures c in Elems(ks)
    {
      AlphabetSymbols(c);
    }
  }

  /** A canonical key sequence (25 distinct symbols) is a fixed point of the completion. */
  lemma CanonicalFixed(ks: string)
    requires Distinct(ks) && AllSymbols(ks) && forall c :: IsSymbol(c) ==> c in ks
    ensures Dedup(Normalize(ks)) + Remaining(Alphabet, Elems(Dedup(Normalize(ks)))) == ks
  {
    AlphabetInKeySequence(ks);
    CompletionFixed(ks, Alphabet);
  }

  /** A repeat-free string of symbols holding every letter of a is left unchanged by
      completing it with the letters of a. */
  lemma CompletionFixed(ks: string, a: string)
    requires Distinct(ks) && AllSymbols(ks) && forall c :: c in a ==> c in Elems(ks)
    ensures Dedup(Normalize(ks)) + Remaining(a, Elems(Dedup(Normalize(ks)))) == ks
  {
    NormalizeSymbols(ks);
    DedupDistinct(ks);
    var d := Dedup(Normalize(ks));
    assert d == ks;
    RemainingAllSeen(a, Elems(d));
    assert d + [] == ks;
  }

  /** The key schedule is idempotent: a canonical key sequence is its own key sequence. */
  lemma KeySequenceIdempotent(key: string)
    ensures KeySequence(KeySequence(key)) == KeySequence(key)
  {
    CanonicalFixed(KeySequence(key));
  }

  /** Unfolds the definition of KeySequence; the methods call it so that the
      verifier sees the two steps the loops compute. */
  lemma KeySequenceUnfold(key: string)
    ensures KeySequence(key) == Dedup(Normalize(key)) + Remaining(Alphabet, Elems(Dedup(Normalize(key))))
  {
  }

  /** prepare_key: normalise the key, keep each letter the first time it is seen, then
      append every alphabet letter not seen. */
  method PrepareKey(key: string) returns (ks: string)
    ensures ks == KeySequence(key)
  {
    var cleaned, seen := KeepFirst(Normalize(key));
    ks := AppendUnused(cleaned, seen, Alphabet);
    KeySequenceUnfold(key);
  }

  /** The first loop of prepare_key: keep each letter of text the first time it is
      seen; seen records the letters kept so far. */
  method KeepFirst(text: string) returns (cleaned: string, seen: set<char>)
    ensures cleaned == Dedup(text) && seen == Elems(cleaned)
  {
    seen := {};
    cleaned := [];
    for i := 0 to |text|
      invariant cleaned == Dedup(text[..i])
      invariant seen == Elems(cleaned)
    {
      var ch := text[i];
      assert text[..i + 1] == text[..i] + [ch];
      DedupSnoc(text[..i], ch);
      if ch !in seen {
        assert Elems(cleaned + [ch]) == Elems(cleaned) + {ch};
        cleaned := cleaned + [ch];
        seen := seen + {ch};
      }
    }
    assert text[..|text|] == text;
  }

  /** The second loop of prepare_key: append, in the order of alphabet, every letter
      of alphabet that is not in seen. */
  method AppendUnused(prefix: string, seen: set<char>, alphabet: string) returns (cleaned: string)
    ensures cleaned == prefix + Remaining(alphabet, seen)
  {
    cleaned := prefix;
    for i := 0 to |alphabet|
      invariant cleaned == prefix + Remaining(alphabet[..i], seen)
    {
      var ch := alphabet[i];
      RemainingPrefix(alphabet, i, seen);
      if ch !in seen {
        cleaned := cleaned + [ch];
      }
    }
    assert alphabet[..|alphabet|] == alphabet;
  }
}
