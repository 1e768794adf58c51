/** The substitution (playfair_encrypt, playfair_decrypt): every digraph is replaced by
    the same-row, same-column or rectangle rule over the key matrix. */
module Cipher {
  import opened Letters
  import opened KeySchedule
  import opened Matrix
  import opened Text

  datatype Direction = Encrypt | Decrypt

  /** The other direction. */
  function Reverse(dir: Direction): Direction {
    if dir == Encrypt then Decrypt else Encrypt
  }

  /** (x + 1) % 5 when encrypting and (x - 1) % 5 when decrypting. Python's % and Dafny's
      agree here: with the divisor 5 both give a result in [0, 4], also for x - 1 < 0. */
  function Shift(x: int, dir: Direction): (y: int)
    ensures 0 <= y < 5
  {
    if dir == Encrypt then (x + 1) % 5 else (x - 1) % 5
  }

  /** Shifting one way and then the other is the identity on [0, 4]. */
  lemma ShiftInverse(x: int, dir: Direction)
    requires 0 <= x < 5
    ensures Shift(Shift(x, dir), Reverse(dir)) == x
  {
  }

  /** The substitution of a digraph whose letters sit at (r1, c1) and (r2, c2). */
  function SubstitutePair(m: seq<seq<char>>, r1: int, c1: int, r2: int, c2: int, dir: Direction): (out: string)
    requires IsGrid(m) && InRange(r1, c1) && InRange(r2, c2)
    ensures |out| == 2
  {
    if r1 == r2 then [m[r1][Shift(c1, dir)], m[r2][Shift(c2, dir)]]
    else if c1 == c2 then [m[Shift(r1, dir)][c1], m[Shift(r2, dir)][c2]]
    else [m[r1][c2], m[r2][c1]]
  }

  /** ch can be looked up in m: the lookup answers a cell, not (-1, -1). */
  predicate Found(m: seq<seq<char>>, ch: char)
    requires IsGrid(m)
  {
    InRange(Position(m, ch).0, Position(m, ch).1)
  }

  /** Every digraph has two letters, both of which can be looked up in m. */
  predicate Locatable(m: seq<seq<char>>, ds: seq<string>)
    requires IsGrid(m)
  {
    forall i :: 0 <= i < |ds| ==> |ds[i]| == 2 && Found(m, ds[i][0]) && Found(m, ds[i][1])
  }

  /** The substitution of one digraph: look up both letters, then apply the rule. */
  function SubstituteDigraph(m: seq<seq<char>>, d: string, dir: Direction): (out: string)
    requires IsGrid(m) && |d| == 2 && Found(m, d[0]) && Found(m, d[1])
    ensures |out| == 2
  {
    var (r1, c1) := Position(m, d[0]);
    var (r2, c2) := Position(m, d[1]);
    SubstitutePair(m, r1, c1, r2, c2, dir)
  }

  /** The substituted digraphs, one per input digraph. */
  function SubstituteAll(m: seq<seq<char>>, ds: seq<string>, dir: Direction): (es: seq<string>)
    requires IsGrid(m) && Locatable(m, ds)
    ensures |es| == |ds|
  {
    seq(|ds|, i requires 0 <= i < |ds| => SubstituteDigraph(m, ds[i], dir))
  }

  /** The output of the substitution over a digraph sequence, without separators. */
  function Transform(m: seq<seq<char>>, ds: seq<string>, dir: Direction): (out: string)
    requires IsGrid(m) && Locatable(m, ds)
    ensures |out| == 2 * |ds|
  {
    var es := SubstituteAll(m, ds, dir);
    assert forall i :: 0 <= i < |es| ==> |es[i]| == 2;
    Flatten(es)
  }

  /** What playfair_encrypt (dir = Encrypt) and playfair_decrypt (dir = Decrypt) return
      for a text and a key: both normalise and digraph their input text first. */
  function Playfair(text: string, key: string, dir: Direction): (out: string)
    ensures |out| == 2 * |Digraphs(Normalize(text))|
  {
    var ds := Digraphs(Normalize(text));
    KeyMatrixLocatable(key, ds);
    Transform(KeyMatrix(key), ds, dir)
  }

  /** Every symbol is found in the key matrix, so every prepared digraph is locatable. */
  lemma KeyMatrixLocatable(key: string, ds: seq<string>)
    requires SymbolDigraphs(ds)
    ensures IsGrid(KeyMatrix(key)) && Locatable(KeyMatrix(key), ds)
  {
    var m := KeyMatrix(key);
    KeyMatrixIsKeyGrid(key);
    forall i | 0 <= i < |ds|
      ensures Found(m, ds[i][0]) && Found(m, ds[i][1])
    {
      KeyGridLookup(m, ds[i][0]);
      KeyGridLookup(m, ds[i][1]);
    }
  }

  /** The three rules, stated as positions: the output letters sit in the row of their
      input letter with the column shifted (same row), in its column with the row shifted
      (same column, row not shared), or in its own row and the other letter's column
      (rectangle). */
  lemma SubstitutionRules(m: seq<seq<char>>, r1: int, c1: int, r2: int, c2: int, dir: Direction)
    requires IsGrid(m) && CellsDistinct(m) && InRange(r1, c1) && InRange(r2, c2)
    ensures var out := SubstitutePair(m, r1, c1, r2, c2, dir);
      && (r1 == r2 ==>
            Position(m, out[0]) == (r1, Shift(c1, dir)) && Position(m, out[1]) == (r2, Shift(c2, dir)))
      && (r1 != r2 && c1 == c2 ==>
            Position(m, out[0]) == (Shift(r1, dir), c1) && Position(m, out[1]) == (Shift(r2, dir), c2))
      && (r1 != r2 && c1 != c2 ==>
            Position(m, out[0]) == (r1, c2) && Position(m, out[1]) == (r2, c1))
  {
    if r1 == r2 {
      PositionOfCell(m, r1, Shift(c1, dir));
      PositionOfCell(m, r2, Shift(c2, dir));
    } else if c1 == c2 {
      PositionOfCell(m, Shift(r1, dir), c1);
      PositionOfCell(m, Shift(r2, dir), c2);
    } else {
      PositionOfCell(m, r1, c2);
      PositionOfCell(m, r2, c1);
    }
  }

  /** The rule of the reverse direction undoes the rule of a direction, digraph by
      digraph (the rectangle rule is its own inverse). */
  lemma {:induction false} DigraphInverse(m: seq<seq<char>>, d: string, dir: Direction)
    requires IsGrid(m) && CellsDistinct(m) && |d| == 2 && Found(m, d[0]) && Found(m, d[1])
    ensures var e := SubstituteDigraph(m, d, dir); Found(m, e[0]) && Found(m, e[1])
    ensures SubstituteDigraph(m, SubstituteDigraph(m, d, dir), Reverse(dir)) == d
  {
    var (r1, c1) := Position(m, d[0]);
    var (r2, c2) := Position(m, d[1]);
    assert m[r1][c1] == d[0] && m[r2][c2] == d[1];
    PairInverse(m, r1, c1, r2, c2, dir);
    assert d == [d[0], d[1]];
  }

  /** DigraphInverse over the cells of the two letters: the output letters are found
      in the matrix, and the rule of the reverse direction maps them back. */
  lemma PairInverse(m: seq<seq<char>>, r1: int, c1: int, r2: int, c2: int, dir: Direction)
    requires IsGrid(m) && CellsDistinct(m) && InRange(r1, c1) && InRange(r2, c2)
    ensures var e := SubstitutePair(m, r1, c1, r2, c2, dir);
      && Found(m, e[0]) && Found(m, e[1])
      && SubstitutePair(m, Position(m, e[0]).0, Position(m, e[0]).1,
                        Position(m, e[1]).0, Position(m, e[1]).1, Reverse(dir)) == [m[r1][c1], m[r2][c2]]
  {
    if r1 == r2 {
      PositionOfCell(m, r1, Shift(c1, dir));
      PositionOfCell(m, r2, Shift(c2, dir));
      ShiftInverse(c1, dir);
      ShiftInverse(c2, dir);
    } else if c1 == c2 {
      PositionOfCell(m, Shift(r1, dir), c1);
      PositionOfCell(m, Shift(r2, dir), c2);
      ShiftInverse(r1, dir);
      ShiftInverse(r2, dir);
    } else {
      PositionOfCell(m, r1, c2);
      PositionOfCell(m, r2, c1);
    }
  }

  /** A digraph of two different letters is substituted by one of two different
      letters. */
  lemma PairStaysPair(m: seq<seq<char>>, d: string, dir: Direction)
    requires IsGrid(m) && CellsDistinct(m) && IsPair(d) && Found(m, d[0]) && Found(m, d[1])
    ensures IsPair(SubstituteDigraph(m, d, dir))
  {
    var (r1, c1) := Position(m, d[0]);
    var (r2, c2) := Position(m, d[1]);
    PositionSpec(m, d[0]);
    PositionSpec(m, d[1]);
    SubstitutionRules(m, r1, c1, r2, c2, dir);
    var e := SubstituteDigraph(m, d, dir);
    if r1 == r2 {
      assert c1 != c2;
      assert Shift(c1, dir) != Shift(c2, dir) by {
        ShiftInverse(c1, dir);
        ShiftInverse(c2, dir);
      }
    } else if c1 == c2 {
      assert Shift(r1, dir) != Shift(r2, dir) by {
        ShiftInverse(r1, dir);
        ShiftInverse(r2, dir);
      }
    }
  }

  /** Every letter the substitution writes is a cell of m. */
  lemma TransformCells(m: seq<seq<char>>, ds: seq<string>, dir: Direction)
    requires IsKeyGrid(m) && Locatable(m, ds)
    ensures AllSymbols(Transform(m, ds, dir))
  {
    var es := SubstituteAll(m, ds, dir);
    forall i | 0 <= i < |es|
      ensures AllSymbols(es[i])
    {
      var d := ds[i];
      var (r1, c1) := Position(m, d[0]);
      var (r2, c2) := Position(m, d[1]);
      assert es[i] == SubstitutePair(m, r1, c1, r2, c2, dir);
      PairCells(m, r1, c1, r2, c2, dir);
    }
    FlattenSymbols(es);
  }

  /** The rules only ever pick cells of m. */
  lemma PairCells(m: seq<seq<char>>, r1: int, c1: int, r2: int, c2: int, dir: Direction)
    requires IsKeyGrid(m) && InRange(r1, c1) && InRange(r2, c2)
    ensures AllSymbols(SubstitutePair(m, r1, c1, r2, c2, dir))
  {
    var out := SubstitutePair(m, r1, c1, r2, c2, dir);
    if r1 == r2 {
      assert InRange(r1, Shift(c1, dir)) && InRange(r2, Shift(c2, dir));
    } else if c1 == c2 {
      assert InRange(Shift(r1, dir), c1) && InRange(Shift(r2, dir), c2);
    } else {
      assert InRange(r1, c2) && InRange(r2, c1);
    }
  }

  /** Letters of symbol strings are symbols. */
  lemma {:induction false} FlattenSymbols(es: seq<string>)
    requires forall i :: 0 <= i < |es| ==> AllSymbols(es[i])
    ensures AllSymbols(Flatten(es))
    decreases |es|
  {
    if es != [] {
      FlattenSymbols(es[1..]);
      assert Flatten(es) == es[0] + Flatten(es[1..]);
    }
  }

  /** Substituting digraphs of two different letters and then re-digraphing and
      substituting back in the reverse direction gives the original letters. */
  lemma TransformInverse(m: seq<seq<char>>, ds: seq<string>, dir: Direction)
    requires IsGrid(m) && CellsDistinct(m) && Locatable(m, ds)
    requires forall i :: 0 <= i < |ds| ==> IsPair(ds[i])
    ensures Digraphs(Transform(m, ds, dir)) == SubstituteAll(m, ds, dir)
    ensures Locatable(m, SubstituteAll(m, ds, dir))
    ensures Transform(m, SubstituteAll(m, ds, dir), Reverse(dir)) == Flatten(ds)
  {
    var es := SubstituteAll(m, ds, dir);
    forall i | 0 <= i < |ds|
      ensures IsPair(es[i]) && Found(m, es[i][0]) && Found(m, es[i][1])
      ensures SubstituteDigraph(m, es[i], Reverse(dir)) == ds[i]
    {
      PairStaysPair(m, ds[i], dir);
      DigraphInverse(m, ds[i], dir);
    }
    DigraphsOfPairs(es);
    assert SubstituteAll(m, es, Reverse(dir)) == ds;
  }

  /** The round trip over one key grid: decrypting (re-normalising and re-digraphing)
      the encryption of digraphs of two different letters gives their letters back. */
  lemma GridRoundTrip(m: seq<seq<char>>, ds: seq<string>)
    requires IsKeyGrid(m) && Locatable(m, ds)
    requires forall i :: 0 <= i < |ds| ==> IsPair(ds[i])
    ensures var c := Transform(m, ds, Encrypt);
      Locatable(m, Digraphs(Normalize(c))) &&
      Transform(m, Digraphs(Normalize(c)), Decrypt) == Flatten(ds)
  {
    var c := Transform(m, ds, Encrypt);
    TransformCells(m, ds, Encrypt);
    NormalizeSymbols(c);
    TransformInverse(m, ds, Encrypt);
  }

  /** The round trip: when no digraph of the prepared plaintext is XX, decrypting the
      ciphertext with the same key gives the prepared plaintext, fillers included. */
  lemma RoundTrip(plaintext: string, key: string)
    requires forall i :: 0 <= i < |Digraphs(Normalize(plaintext))| ==>
               Digraphs(Normalize(plaintext))[i] != [Filler, Filler]
    ensures Playfair(Playfair(plaintext, key, Encrypt), key, Decrypt) ==
            Flatten(Digraphs(Normalize(plaintext)))
  {
    var m := KeyMatrix(key);
    var ds := Digraphs(Normalize(plaintext));
    KeyMatrixIsKeyGrid(key);
    KeyMatrixLocatable(key, ds);
    DigraphsArePairs(Normalize(plaintext));
    GridRoundTrip(m, ds);
    var c := Playfair(plaintext, key, Encrypt);
    assert c == Transform(m, ds, Encrypt);
  }

  /** Without any x in the plaintext no digraph is XX, and removing the X's of the
      decryption gives the normalised plaintext. */
  lemma RoundTripWithoutX(plaintext: string, key: string)
    requires Filler !in Normalize(plaintext)
    ensures StripFiller(Playfair(Playfair(plaintext, key, Encrypt), key, Decrypt)) ==
            Normalize(plaintext)
  {
    var t := Normalize(plaintext);
    DoubleFillerNeedsX(t);
    var ds := Digraphs(t);
    forall i | 0 <= i < |ds|
      ensures ds[i] != [Filler, Filler]
    {
      assert ds[i][0] != ds[i][1];
    }
    RoundTrip(plaintext, key);
    DigraphsStripFiller(t);
    StripFillerNone(t);
  }

  /** The substitution loop shared by playfair_encrypt and playfair_decrypt: build the
      matrix, prepare the text, then append the substitute of each digraph. */
  method Substitute(text: string, key: string, dir: Direction) returns (out: string)
    ensures out == Playfair(text, key, dir)
  {
    var matrix := CreateMatrix(key);
    var digraphs := PrepareText(text);
    KeyMatrixLocatable(key, digraphs);
    out := "";
    for i := 0 to |digraphs|
      invariant out == Transform(matrix, digraphs[..i], dir)
    {
      var a, b := digraphs[i][0], digraphs[i][1];
      var row1, col1 := FindPosition(matrix, a);
      var row2, col2 := FindPosition(matrix, b);
      var pair := SubstitutePair(matrix, row1, col1, row2, col2, dir);
      TransformSnoc(matrix, digraphs, i, dir);
      out := out + pair;
    }
    assert digraphs[..|digraphs|] == digraphs;
  }

  /** One more digraph for Transform. */
  lemma TransformSnoc(m: seq<seq<char>>, ds: seq<string>, i: nat, dir: Direction)
    requires IsGrid(m) && Locatable(m, ds) && i < |ds|
    ensures Transform(m, ds[..i + 1], dir) == Transform(m, ds[..i], dir) + SubstituteDigraph(m, ds[i], dir)
  {
    var e := SubstituteDigraph(m, ds[i], dir);
    var a := SubstituteAll(m, ds[..i], dir);
    var b := SubstituteAll(m, ds[..i + 1], dir);
    assert b == a + [e];
    FlattenAppend(a, [e]);
    assert Flatten([e]) == e + [];
  }

  /** playfair_encrypt. */
  method PlayfairEncrypt(plaintext: string, key: string) returns (ciphertext: string)
    ensures ciphertext == Playfair(plaintext, key, Encrypt)
  {
    ciphertext := Substitute(plaintext, key, Encrypt);
  }

  /** playfair_decrypt: the ciphertext goes through the same text preparation. */
  method PlayfairDecrypt(ciphertext: string, key: string) returns (plaintext: string)
    ensures plaintext == Playfair(ciphertext, key, Decrypt)
  {
    plaintext := Substitute(ciphertext, key, Decrypt);
  }
}
