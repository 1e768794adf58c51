/** The expected values of the repository's unit tests, derived from the model. Long
    literals are written as concatenations of short pieces, which name the same
    strings. */
module KnownAnswers {
  import opened Letters
  import opened KeySchedule
  import opened Matrix
  import opened Text
  import opened Cipher

  lemma NormalizePlay() ensures Normalize("play") == "PLAY" {}
  lemma NormalizeFair() ensures Normalize("fair") == "FAIR" {}
  lemma NormalizeExa() ensures Normalize(" exa") == "EXA" {}
  lemma NormalizeMple() ensures Normalize("mple") == "MPLE" {}

  lemma NormalizePlayfairExample()
    ensures Normalize("play" + "fair" + " exa" + "mple") == "PLAY" + "FAIR" + "EXA" + "MPLE"
  {
    NormalizeAppend("play" + "fair" + " exa", "mple");
    NormalizeAppend("play" + "fair", " exa");
    NormalizeAppend("play", "fair");
    NormalizePlay();
    NormalizeFair();
    NormalizeExa();
    NormalizeMple();
  }

  lemma Resplit()
    ensures "PLAY" + "FAIR" + "EXA" + "MPLE" == "PLAYF" + "A" + "IREX" + "A" + "M" + "PLE"
  {
  }

  lemma DedupPlayfairExample1() ensures Dedup("PLAYF" + "A") == "PLAYF" {
    DedupDistinct("PLAYF");
    DedupExtend("PLAYF", "A");
  }

  lemma DedupPlayfairExample2() ensures Dedup("PLAYF" + "A" + "IREX") == "PLAYF" + "IREX" {
    DedupPlayfairExample1();
    DedupExtend("PLAYF" + "A", "IREX");
  }

  lemma DedupPlayfairExample3() ensures Dedup("PLAYF" + "A" + "IREX" + "A" + "M") == "PLAYF" + "IREX" + "M" {
    DedupPlayfairExample2();
    DedupExtend("PLAYF" + "A" + "IREX", "A");
    DedupExtend("PLAYF" + "A" + "IREX" + "A", "M");
  }

  lemma DedupPlayfairExample()
    ensures Dedup("PLAYF" + "A" + "IREX" + "A" + "M" + "PLE") == "PLAYFIREXM"
  {
    DedupPlayfairExample3();
    DedupExtend("PLAYF" + "A" + "IREX" + "A" + "M", "PLE");
  }

  lemma UnusedPlayfairExampleSymbols()
    ensures forall c :: c in "BCDGHKNOQSTUVWZ" ==> IsSymbol(c) && c !in "PLAY" + "FAIR" + "EXA" + "MPLE"
  {
  }

  lemma UnusedPlayfairExampleComplete()
    ensures forall c :: IsSymbol(c) && c !in "PLAY" + "FAIR" + "EXA" + "MPLE" ==> c in "BCDGHKNOQSTUVWZ"
  {
  }

  lemma UnusedPlayfairExample()
    ensures Increasing("BCDGHKNOQSTUVWZ")
    ensures forall c :: c in "BCDGHKNOQSTUVWZ" <==> IsSymbol(c) && c !in "PLAY" + "FAIR" + "EXA" + "MPLE"
  {
    UnusedPlayfairExampleSymbols();
    UnusedPlayfairExampleComplete();
  }

  /** prepare_key("playfair example") is PLAYFIREXMBCDGHKNOQSTUVWZ. */
  lemma KeyPlayfairExample()
    ensures KeySequence("play" + "fair" + " exa" + "mple") == "PLAYFIREXM" + "BCDGHKNOQSTUVWZ"
  {
    NormalizePlayfairExample();
    Resplit();
    DedupPlayfairExample();
    UnusedPlayfairExample();
    KeySequenceFrom("play" + "fair" + " exa" + "mple", "PLAYFIREXM", "BCDGHKNOQSTUVWZ");
  }

  /** create_matrix("playfair example") has the rows PLAYF, IREXM, BCDGH, KNOQS, TUVWZ. */
  lemma MatrixPlayfairExample()
    ensures KeyMatrix("play" + "fair" + " exa" + "mple") == ["PLAYF", "IREXM", "BCDGH", "KNOQS", "TUVWZ"]
  {
    KeyPlayfairExample();
    RowsPlayfairExample();
  }

  lemma RowsPlayfairExample()
    ensures Rows("PLAYFIREXM" + "BCDGHKNOQSTUVWZ") == ["PLAYF", "IREXM", "BCDGH", "KNOQS", "TUVWZ"]
  {
    var ks := "PLAYFIREXM" + "BCDGHKNOQSTUVWZ";
    assert ks[0..5] == "PLAYF" && ks[5..10] == "IREXM";
    assert ks[10..15] == "BCDGH" && ks[15..20] == "KNOQS" && ks[20..25] == "TUVWZ";
    RowsOf(ks, "PLAYF", "IREXM", "BCDGH", "KNOQS", "TUVWZ");
  }

  lemma NormalizeJazz() ensures Normalize("jazz") == "IAZ" + "Z" {}

  lemma UnusedJazzIncreasing() ensures Increasing("BCDEFGHKLMNOPQRSTUVWXY") {}

  lemma UnusedJazzSymbols()
    ensures forall c :: c in "BCDEFGHKLMNOPQRSTUVWXY" ==> IsSymbol(c) && c !in "IAZ" + "Z"
  {
    assert "BCDEFGHKLMNOPQRSTUVWXY" == "BCDEFGHKLMN" + "OPQRSTUVWXY";
    UnusedJazzSymbolsLow();
    UnusedJazzSymbolsHigh();
  }

  lemma UnusedJazzSymbolsLow()
    ensures forall c :: c in "BCDEFGHKLMN" ==> IsSymbol(c) && c !in "IAZ" + "Z"
  {
  }

  lemma UnusedJazzSymbolsHigh()
    ensures forall c :: c in "OPQRSTUVWXY" ==> IsSymbol(c) && c !in "IAZ" + "Z"
  {
  }

  lemma UnusedJazzComplete()
    ensures forall c :: IsSymbol(c) && c !in "IAZ" + "Z" ==> c in "BCDEFGHKLMNOPQRSTUVWXY"
  {
  }

  lemma UnusedJazz()
    ensures Increasing("BCDEFGHKLMNOPQRSTUVWXY")
    ensures forall c :: c in "BCDEFGHKLMNOPQRSTUVWXY" <==> IsSymbol(c) && c !in "IAZ" + "Z"
  {
    UnusedJazzIncreasing();
    UnusedJazzSymbols();
    UnusedJazzComplete();
  }

  /** prepare_key("jazz") is IAZBCDEFGHKLMNOPQRSTUVWXY: j becomes I and the second z is
      dropped. */
  lemma KeyJazz()
    ensures KeySequence("jazz") == "IAZ" + "BCDEFGHKLMNOPQRSTUVWXY"
  {
    NormalizeJazz();
    DedupDistinct("IAZ");
    DedupExtend("IAZ", "Z");
    UnusedJazz();
    KeySequenceFrom("jazz", "IAZ", "BCDEFGHKLMNOPQRSTUVWXY");
  }

  lemma NormalizeHel() ensures Normalize("hel") == "HEL" {}
  lemma NormalizeLo() ensures Normalize("lo") == "LO" {}
  lemma NormalizeWo() ensures Normalize(" wo") == "WO" {}
  lemma NormalizeRld() ensures Normalize("rld") == "RLD" {}

  lemma NormalizeHelloWorld()
    ensures Normalize("hel" + "lo" + " wo" + "rld") == "HEL" + "LO" + "WO" + "RLD"
  {
    NormalizeAppend("hel" + "lo" + " wo", "rld");
    NormalizeAppend("hel" + "lo", " wo");
    NormalizeAppend("hel", "lo");
    NormalizeHel();
    NormalizeLo();
    NormalizeWo();
    NormalizeRld();
  }

  /** The scan of prepare_text, one step at a time: two different letters. */
  lemma DigraphsTwo(a: char, b: char, rest: string)
    requires a != b
    ensures Digraphs([a, b] + rest) == [[a, b]] + Digraphs(rest)
  {
    assert ([a, b] + rest)[2..] == rest;
  }

  /** A letter followed by the same letter. */
  lemma DigraphsDouble(a: char, rest: string)
    requires rest != [] && rest[0] == a
    ensures Digraphs([a] + rest) == [[a, Filler]] + Digraphs(rest)
  {
    assert ([a] + rest)[1..] == rest;
  }

  /** A lone last letter. */
  lemma DigraphsLast(a: char)
    ensures Digraphs([a]) == [[a, Filler]]
  {
  }

  /** Three digraphs of two different letters each. */
  lemma DigraphsThreePairs(a: char, b: char, c: char, d: char, e: char, f: char, rest: string)
    requires a != b && c != d && e != f
    ensures Digraphs([a, b, c, d, e, f] + rest) == [[a, b], [c, d], [e, f]] + Digraphs(rest)
  {
    var r2 := [e, f] + rest;
    var r1 := [c, d] + r2;
    assert [a, b, c, d, e, f] + rest == [a, b] + r1;
    DigraphsTwo(e, f, rest);
    DigraphsTwo(c, d, r2);
    DigraphsTwo(a, b, r1);
  }

  /** Two digraphs of two different letters each, then a lone last letter. */
  lemma DigraphsTwoPairsLast(a: char, b: char, c: char, d: char, e: char)
    requires a != b && c != d
    ensures Digraphs([a, b, c, d, e]) == [[a, b], [c, d], [e, Filler]]
  {
    assert [a, b, c, d, e] == [a, b] + ([c, d] + [e]);
    DigraphsLast(e);
    DigraphsTwo(c, d, [e]);
    DigraphsTwo(a, b, [c, d] + [e]);
  }

  lemma ResplitHelloWorld()
    ensures "HEL" + "LO" + "WO" + "RLD" == "HE" + ("L" + ("LOWORL" + "D"))
  {
  }

  lemma DigraphsHelloWorldTail()
    ensures Digraphs("L" + ("LOWORL" + "D")) == ["LX", "LO", "WO", "RL", "DX"]
  {
    DigraphsThreePairs('L', 'O', 'W', 'O', 'R', 'L', "D");
    DigraphsLast('D');
    DigraphsDouble('L', "LOWORL" + "D");
  }

  lemma DigraphsHelloWorld()
    ensures Digraphs("HE" + ("L" + ("LOWORL" + "D"))) == ["HE", "LX", "LO", "WO", "RL", "DX"]
  {
    DigraphsHelloWorldTail();
    DigraphsTwo('H', 'E', "L" + ("LOWORL" + "D"));
  }

  /** prepare_text("hello world") is HE LX LO WO RL DX. */
  lemma TextHelloWorld()
    ensures Digraphs(Normalize("hel" + "lo" + " wo" + "rld")) == ["HE", "LX", "LO", "WO", "RL", "DX"]
  {
    NormalizeHelloWorld();
    ResplitHelloWorld();
    DigraphsHelloWorld();
  }

  lemma NormalizeBall() ensures Normalize("ball") == "BALL" {}
  lemma NormalizeOon() ensures Normalize("oon") == "OON" {}

  /** prepare_text("balloon") is BA LX LO ON. */
  lemma TextBalloon()
    ensures Digraphs(Normalize("ball" + "oon")) == ["BA", "LX", "LO", "ON"]
  {
    NormalizeAppend("ball", "oon");
    NormalizeBall();
    NormalizeOon();
    assert "BALL" + "OON" == "BA" + ("L" + ("LO" + "ON"));
    DigraphsTwo('O', 'N', []);
    DigraphsTwo('L', 'O', "ON");
    DigraphsDouble('L', "LO" + "ON");
    DigraphsTwo('B', 'A', "L" + ("LO" + "ON"));
    assert "ON" == "ON" + [];
  }

  /** prepare_text("jazz") is IA ZX ZX. */
  lemma TextJazz()
    ensures Digraphs(Normalize("jazz")) == ["IA", "ZX", "ZX"]
  {
    NormalizeJazz();
    assert "IAZ" + "Z" == "IAZZ";
  }

  lemma NormalizeMona() ensures Normalize("mona") == "MONA" {}
  lemma NormalizeRchy() ensures Normalize("rchy") == "RCHY" {}

  lemma UnusedMonarchySymbols()
    ensures forall c :: c in "BDEFGIKLPQSTUVWXZ" ==> IsSymbol(c) && c !in "MONA" + "RCHY"
  {
  }

  lemma UnusedMonarchyComplete()
    ensures forall c :: IsSymbol(c) && c !in "MONA" + "RCHY" ==> c in "BDEFGIKLPQSTUVWXZ"
  {
  }

  lemma UnusedMonarchy()
    ensures Increasing("BDEFGIKLPQSTUVWXZ")
    ensures forall c :: c in "BDEFGIKLPQSTUVWXZ" <==> IsSymbol(c) && c !in "MONA" + "RCHY"
  {
    UnusedMonarchySymbols();
    UnusedMonarchyComplete();
  }

  /** prepare_key("monarchy") is MONARCHYBDEFGIKLPQSTUVWXZ. */
  lemma KeyMonarchy()
    ensures KeySequence("mona" + "rchy") == "MONARCHY" + "BDEFGIKLPQSTUVWXZ"
  {
    NormalizeAppend("mona", "rchy");
    NormalizeMona();
    NormalizeRchy();
    assert "MONA" + "RCHY" == "MONARCHY";
    DedupDistinct("MONARCHY");
    UnusedMonarchy();
    KeySequenceFrom("mona" + "rchy", "MONARCHY", "BDEFGIKLPQSTUVWXZ");
  }

  /** The key matrix of monarchy. */
  const Monarchy: seq<seq<char>> := ["MONAR", "CHYBD", "EFGIK", "LPQST", "UVWXZ"]

  lemma MatrixMonarchy()
    ensures KeyMatrix("mona" + "rchy") == Monarchy
  {
    KeyMonarchy();
    RowsMonarchy();
  }

  lemma RowsMonarchy()
    ensures Rows("MONARCHY" + "BDEFGIKLPQSTUVWXZ") == Monarchy
  {
    var ks := "MONARCHY" + "BDEFGIKLPQSTUVWXZ";
    assert ks[0..5] == "MONAR" && ks[5..10] == "CHYBD";
    assert ks[10..15] == "EFGIK" && ks[15..20] == "LPQST" && ks[20..25] == "UVWXZ";
    RowsOf(ks, "MONAR", "CHYBD", "EFGIK", "LPQST", "UVWXZ");
  }

  lemma NormalizeInst() ensures Normalize("inst") == "INST" {}
  lemma NormalizeRume() ensures Normalize("rume") == "RUME" {}
  lemma NormalizeNts() ensures Normalize("nts") == "NTS" {}

  lemma NormalizeInstruments()
    ensures Normalize("inst" + "rume" + "nts") == "INST" + "RUME" + "NTS"
  {
    NormalizeAppend("inst" + "rume", "nts");
    NormalizeAppend("inst", "rume");
    NormalizeInst();
    NormalizeRume();
    NormalizeNts();
  }

  lemma ResplitInstrumentsText()
    ensures "INST" + "RUME" + "NTS" == "INSTRU" + "MENTS"
  {
  }

  lemma DigraphsInstruments()
    ensures Digraphs("INSTRU" + "MENTS") == ["IN", "ST", "RU", "ME", "NT", "SX"]
  {
    DigraphsThreePairs('I', 'N', 'S', 'T', 'R', 'U', "MENTS");
    DigraphsTwoPairsLast('M', 'E', 'N', 'T', 'S');
  }

  /** prepare_text("instruments") is IN ST RU ME NT SX. */
  lemma TextInstruments()
    ensures Digraphs(Normalize("inst" + "rume" + "nts")) == ["IN", "ST", "RU", "ME", "NT", "SX"]
  {
    NormalizeInstruments();
    ResplitInstrumentsText();
    DigraphsInstruments();
  }

  /** The substitution of the digraph held by the cells (r1, c1) and (r2, c2) of a
      matrix without repeated letters. */
  lemma SubstituteAt(m: seq<seq<char>>, d: string, r1: int, c1: int, r2: int, c2: int, dir: Direction)
    requires IsGrid(m) && CellsDistinct(m) && InRange(r1, c1) && InRange(r2, c2)
    requires d == [m[r1][c1], m[r2][c2]]
    ensures Found(m, d[0]) && Found(m, d[1])
    ensures SubstituteDigraph(m, d, dir) == SubstitutePair(m, r1, c1, r2, c2, dir)
  {
    PositionOfCell(m, r1, c1);
    PositionOfCell(m, r2, c2);
  }

  /** IN is encrypted to GA over the monarchy matrix (rectangle). */
  lemma EncryptIN(m: seq<seq<char>>)
    requires m == Monarchy && CellsDistinct(m)
    ensures Found(m, 'I') && Found(m, 'N')
    ensures SubstituteDigraph(m, "IN", Encrypt) == "GA"
  {
    SubstituteAt(m, "IN", 2, 3, 0, 2, Encrypt);
  }

  /** ST is encrypted to TL (same row, wrapping around). */
  lemma EncryptST(m: seq<seq<char>>)
    requires m == Monarchy && CellsDistinct(m)
    ensures Found(m, 'S') && Found(m, 'T')
    ensures SubstituteDigraph(m, "ST", Encrypt) == "TL"
  {
    SubstituteAt(m, "ST", 3, 3, 3, 4, Encrypt);
  }

  /** RU is encrypted to MZ (rectangle). */
  lemma EncryptRU(m: seq<seq<char>>)
    requires m == Monarchy && CellsDistinct(m)
    ensures Found(m, 'R') && Found(m, 'U')
    ensures SubstituteDigraph(m, "RU", Encrypt) == "MZ"
  {
    SubstituteAt(m, "RU", 0, 4, 4, 0, Encrypt);
  }

  /** ME is encrypted to CL (same column). */
  lemma EncryptME(m: seq<seq<char>>)
    requires m == Monarchy && CellsDistinct(m)
    ensures Found(m, 'M') && Found(m, 'E')
    ensures SubstituteDigraph(m, "ME", Encrypt) == "CL"
  {
    SubstituteAt(m, "ME", 0, 0, 2, 0, Encrypt);
  }

  /** NT is encrypted to RQ (rectangle). */
  lemma EncryptNT(m: seq<seq<char>>)
    requires m == Monarchy && CellsDistinct(m)
    ensures Found(m, 'N') && Found(m, 'T')
    ensures SubstituteDigraph(m, "NT", Encrypt) == "RQ"
  {
    SubstituteAt(m, "NT", 0, 2, 3, 4, Encrypt);
  }

  /** SX is encrypted to XA (same column, wrapping around). */
  lemma EncryptSX(m: seq<seq<char>>)
    requires m == Monarchy && CellsDistinct(m)
    ensures Found(m, 'S') && Found(m, 'X')
    ensures SubstituteDigraph(m, "SX", Encrypt) == "XA"
  {
    SubstituteAt(m, "SX", 3, 3, 4, 3, Encrypt);
  }

  /** The substitution of a digraph sequence, one digraph at a time from the front. */
  lemma TransformCons(m: seq<seq<char>>, d: string, ds: seq<string>, dir: Direction)
    requires IsGrid(m) && |d| == 2 && Found(m, d[0]) && Found(m, d[1]) && Locatable(m, ds)
    ensures Locatable(m, [d] + ds)
    ensures Transform(m, [d] + ds, dir) == SubstituteDigraph(m, d, dir) + Transform(m, ds, dir)
  {
    assert forall i :: 0 < i < |[d] + ds| ==> ([d] + ds)[i] == ds[i - 1];
    var es := SubstituteAll(m, [d] + ds, dir);
    assert es[1..] == SubstituteAll(m, ds, dir);
  }

  /** The substitution of three digraphs whose substitutes are known. */
  lemma TransformThree(m: seq<seq<char>>, d1: string, d2: string, d3: string,
                       e1: string, e2: string, e3: string, dir: Direction)
    requires IsGrid(m) && |d1| == 2 && |d2| == 2 && |d3| == 2
    requires Found(m, d1[0]) && Found(m, d1[1]) && SubstituteDigraph(m, d1, dir) == e1
    requires Found(m, d2[0]) && Found(m, d2[1]) && SubstituteDigraph(m, d2, dir) == e2
    requires Found(m, d3[0]) && Found(m, d3[1]) && SubstituteDigraph(m, d3, dir) == e3
    ensures Locatable(m, [d1, d2, d3]) && Transform(m, [d1, d2, d3], dir) == e1 + e2 + e3
  {
    TransformCons(m, d3, [], dir);
    TransformCons(m, d2, [d3], dir);
    TransformCons(m, d1, [d2, d3], dir);
    assert [d3] == [d3] + [] && [d2, d3] == [d2] + [d3] && [d1, d2, d3] == [d1] + [d2, d3];
  }

  /** Substituting two digraph sequences one after the other. */
  lemma TransformAppend(m: seq<seq<char>>, ds: seq<string>, fs: seq<string>, dir: Direction)
    requires IsGrid(m) && Locatable(m, ds) && Locatable(m, fs)
    ensures Locatable(m, ds + fs)
    ensures Transform(m, ds + fs, dir) == Transform(m, ds, dir) + Transform(m, fs, dir)
  {
    var gs := ds + fs;
    forall i | 0 <= i < |gs|
      ensures gs[i] == if i < |ds| then ds[i] else fs[i - |ds|]
    {
    }
    var a := SubstituteAll(m, ds, dir);
    var b := SubstituteAll(m, fs, dir);
    var all := SubstituteAll(m, gs, dir);
    forall i | 0 <= i < |all|
      ensures all[i] == (a + b)[i]
    {
      if i < |ds| {
        assert all[i] == SubstituteDigraph(m, ds[i], dir);
      } else {
        assert all[i] == SubstituteDigraph(m, fs[i - |ds|], dir);
      }
    }
    assert all == a + b;
    FlattenAppend(a, b);
  }

  /** The digraphs of instruments, substituted over a matrix with the substitutes of
      the monarchy matrix. */
  lemma TransformInstruments(m: seq<seq<char>>)
    requires IsGrid(m)
    requires Found(m, 'I') && Found(m, 'N') && SubstituteDigraph(m, "IN", Encrypt) == "GA"
    requires Found(m, 'S') && Found(m, 'T') && SubstituteDigraph(m, "ST", Encrypt) == "TL"
    requires Found(m, 'R') && Found(m, 'U') && SubstituteDigraph(m, "RU", Encrypt) == "MZ"
    requires Found(m, 'M') && Found(m, 'E') && SubstituteDigraph(m, "ME", Encrypt) == "CL"
    requires Found(m, 'N') && Found(m, 'T') && SubstituteDigraph(m, "NT", Encrypt) == "RQ"
    requires Found(m, 'S') && Found(m, 'X') && SubstituteDigraph(m, "SX", Encrypt) == "XA"
    ensures var ds := ["IN", "ST", "RU"] + ["ME", "NT", "SX"];
      Locatable(m, ds) && Transform(m, ds, Encrypt) == "GA" + "TL" + "MZ" + ("CL" + "RQ" + "XA")
  {
    TransformThree(m, "IN", "ST", "RU", "GA", "TL", "MZ", Encrypt);
    TransformThree(m, "ME", "NT", "SX", "CL", "RQ", "XA", Encrypt);
    TransformAppend(m, ["IN", "ST", "RU"], ["ME", "NT", "SX"], Encrypt);
  }

  lemma ResplitInstruments()
    ensures ["IN", "ST", "RU", "ME", "NT", "SX"] == ["IN", "ST", "RU"] + ["ME", "NT", "SX"]
    ensures "GA" + "TL" + "MZ" + ("CL" + "RQ" + "XA") == "GATLMZ" + "CLRQXA"
  {
  }

  /** playfair_encrypt("instruments", "monarchy") is GATLMZCLRQXA. */
  lemma EncryptInstruments()
    ensures Playfair("inst" + "rume" + "nts", "mona" + "rchy", Encrypt) == "GATLMZ" + "CLRQXA"
  {
    MatrixMonarchy();
    KeyMatrixIsKeyGrid("mona" + "rchy");
    TextInstruments();
    EncryptIN(Monarchy);
    EncryptST(Monarchy);
    EncryptRU(Monarchy);
    EncryptME(Monarchy);
    EncryptNT(Monarchy);
    EncryptSX(Monarchy);
    TransformInstruments(Monarchy);
    ResplitInstruments();
  }

  /** The round trip, stated for a known ciphertext c and known digraphs ds. */
  lemma DecryptionOf(plaintext: string, key: string, c: string, ds: seq<string>)
    requires Playfair(plaintext, key, Encrypt) == c && Digraphs(Normalize(plaintext)) == ds
    requires forall i :: 0 <= i < |ds| ==> ds[i] != [Filler, Filler]
    ensures Playfair(c, key, Decrypt) == Flatten(ds)
  {
    RoundTrip(plaintext, key);
  }

  lemma InstrumentsHasNoFillerPair()
    ensures forall i :: 0 <= i < |["IN", "ST", "RU", "ME", "NT", "SX"]| ==>
      ["IN", "ST", "RU", "ME", "NT", "SX"][i] != [Filler, Filler]
  {
  }

  lemma FlattenInstrumentsHead() ensures Flatten(["IN", "ST", "RU"]) == "INSTRU" {}
  lemma FlattenInstrumentsTail() ensures Flatten(["ME", "NT", "SX"]) == "MENTSX" {}

  lemma FlattenInstruments()
    ensures Flatten(["IN", "ST", "RU", "ME", "NT", "SX"]) == "INSTRUMENTSX"
  {
    assert ["IN", "ST", "RU", "ME", "NT", "SX"] == ["IN", "ST", "RU"] + ["ME", "NT", "SX"];
    FlattenAppend(["IN", "ST", "RU"], ["ME", "NT", "SX"]);
    FlattenInstrumentsHead();
    FlattenInstrumentsTail();
    assert "INSTRU" + "MENTSX" == "INSTRUMENTSX";
  }

  /** playfair_decrypt("GATLMZCLRQXA", "monarchy") is INSTRUMENTSX. */
  lemma DecryptInstruments()
    ensures Playfair("GATLMZ" + "CLRQXA", "mona" + "rchy", Decrypt) == "INSTRUMENTSX"
  {
    EncryptInstruments();
    TextInstruments();
    InstrumentsHasNoFillerPair();
    DecryptionOf("inst" + "rume" + "nts", "mona" + "rchy", "GATLMZ" + "CLRQXA", ["IN", "ST", "RU", "ME", "NT", "SX"]);
    FlattenInstruments();
  }

  lemma StripInstruments()
    ensures StripFiller("INSTRUMENTSX") == "INSTRUMENTS"
  {
    assert "INSTRUMENTSX" == "INSTRUMENTS" + [Filler];
    StripFillerAppend("INSTRUMENTS", [Filler]);
    StripFillerNone("INSTRUMENTS");
  }

  /** Removing the X's of the decryption gives INSTRUMENTS. */
  lemma DecryptInstrumentsWithoutX()
    ensures StripFiller(Playfair("GATLMZ" + "CLRQXA", "mona" + "rchy", Decrypt)) == "INSTRUMENTS"
  {
    DecryptInstruments();
    StripInstruments();
  }

  lemma NormalizeHide() ensures Normalize("hide") == "HIDE" {}
  lemma NormalizeThe() ensures Normalize(" the") == "THE" {}
  lemma NormalizeGol() ensures Normalize(" gol") == "GOL" {}
  lemma NormalizeDin() ensures Normalize("d in") == "DIN" {}
  lemma NormalizeTre() ensures Normalize(" tre") == "TRE" {}
  lemma NormalizeEst() ensures Normalize("e st") == "EST" {}
  lemma NormalizeUmp() ensures Normalize("ump") == "UMP" {}

  lemma NormalizeHideTheGold()
    ensures Normalize("hide" + " the" + " gol" + "d in") == "HIDE" + "THE" + "GOL" + "DIN"
  {
    NormalizeAppend("hide" + " the" + " gol", "d in");
    NormalizeAppend("hide" + " the", " gol");
    NormalizeAppend("hide", " the");
    NormalizeHide();
    NormalizeThe();
    NormalizeGol();
    NormalizeDin();
  }

  lemma NormalizeTheTreeStump()
    ensures Normalize(" the" + " tre" + "e st" + "ump") == "THE" + "TRE" + "EST" + "UMP"
  {
    NormalizeAppend(" the" + " tre" + "e st", "ump");
    NormalizeAppend(" the" + " tre", "e st");
    NormalizeAppend(" the", " tre");
    NormalizeThe();
    NormalizeTre();
    NormalizeEst();
    NormalizeUmp();
  }

  /** The plaintext of the round-trip test, normalised. */
  lemma NormalizeHideTheGoldInTheTreeStump()
    ensures Normalize(("hide" + " the" + " gol" + "d in") + (" the" + " tre" + "e st" + "ump")) ==
            ("HIDE" + "THE" + "GOL" + "DIN") + ("THE" + "TRE" + "EST" + "UMP")
    ensures Filler !in ("HIDE" + "THE" + "GOL" + "DIN") + ("THE" + "TRE" + "EST" + "UMP")
  {
    NormalizeAppend("hide" + " the" + " gol" + "d in", " the" + " tre" + "e st" + "ump");
    NormalizeHideTheGold();
    NormalizeTheTreeStump();
  }

  lemma ResplitHideTheGold()
    ensures ("HIDE" + "THE" + "GOL" + "DIN") + ("THE" + "TRE" + "EST" + "UMP") == "HIDETHEGOLDINTHETREESTUMP"
  {
  }

  /** Encrypting "hide the gold in the tree stump" with the key "playfair example",
      decrypting the result and removing the X's gives HIDETHEGOLDINTHETREESTUMP. */
  lemma HideTheGoldRoundTrip()
    ensures var plaintext := ("hide" + " the" + " gol" + "d in") + (" the" + " tre" + "e st" + "ump");
      var key := "play" + "fair" + " exa" + "mple";
      StripFiller(Playfair(Playfair(plaintext, key, Encrypt), key, Decrypt)) == "HIDETHEGOLDINTHETREESTUMP"
  {
    var plaintext := ("hide" + " the" + " gol" + "d in") + (" the" + " tre" + "e st" + "ump");
    NormalizeHideTheGoldInTheTreeStump();
    RoundTripWithoutX(plaintext, "play" + "fair" + " exa" + "mple");
    ResplitHideTheGold();
  }

  /** prepare_text("xx") is XX XX: the doubled x is padded with the filler X. */
  lemma TextDoubledX()
    ensures Digraphs(Normalize("xx")) == ["XX", "XX"]
  {
  }

  /** XX is encrypted to ZZ over the monarchy matrix (same row). */
  lemma EncryptXX(m: seq<seq<char>>)
    requires m == Monarchy && CellsDistinct(m)
    ensures Found(m, 'X')
    ensures SubstituteDigraph(m, "XX", Encrypt) == "ZZ"
  {
    SubstituteAt(m, "XX", 4, 3, 4, 3, Encrypt);
  }

  /** ZX is decrypted to XW over the monarchy matrix (same row). */
  lemma DecryptZX(m: seq<seq<char>>)
    requires m == Monarchy && CellsDistinct(m)
    ensures Found(m, 'Z') && Found(m, 'X')
    ensures SubstituteDigraph(m, "ZX", Decrypt) == "XW"
  {
    SubstituteAt(m, "ZX", 4, 4, 4, 3, Decrypt);
  }

  /** Two XX digraphs over a matrix where XX is substituted by ZZ. */
  lemma TransformDoubledX(m: seq<seq<char>>)
    requires IsGrid(m) && Found(m, 'X') && SubstituteDigraph(m, "XX", Encrypt) == "ZZ"
    ensures Locatable(m, ["XX", "XX"]) && Transform(m, ["XX", "XX"], Encrypt) == "ZZ" + "ZZ"
  {
    TransformCons(m, "XX", [], Encrypt);
    TransformCons(m, "XX", ["XX"], Encrypt);
    assert ["XX"] == ["XX"] + [] && ["XX", "XX"] == ["XX"] + ["XX"];
  }

  /** playfair_encrypt("xx", "monarchy") is ZZZZ. */
  lemma EncryptDoubledX()
    ensures Playfair("xx", "mona" + "rchy", Encrypt) == "ZZ" + "ZZ"
  {
    MatrixMonarchy();
    KeyMatrixIsKeyGrid("mona" + "rchy");
    TextDoubledX();
    EncryptXX(Monarchy);
    TransformDoubledX(Monarchy);
  }

  /** prepare_text("ZZZZ") is ZX ZX ZX ZX. */
  lemma TextZZZZ()
    ensures Digraphs(Normalize("ZZ" + "ZZ")) == [['Z', Filler]] + ["ZX", "ZX", "ZX"]
  {
    NormalizeSymbols("ZZ" + "ZZ");
    assert "ZZ" + "ZZ" == ['Z'] + "ZZZ";
    DigraphsDouble('Z', "ZZZ");
    assert "ZZZ" == ['Z'] + "ZZ";
    DigraphsDouble('Z', "ZZ");
    assert "ZZ" == ['Z'] + "Z";
    DigraphsDouble('Z', "Z");
    DigraphsLast('Z');
  }

  /** The letters of a decryption that starts with the digraph ZX over a matrix where ZX
      is substituted by XW. */
  lemma DecryptStartsWithXW(m: seq<seq<char>>, rest: seq<string>)
    requires IsGrid(m) && Found(m, 'Z') && Found(m, 'X') && SubstituteDigraph(m, "ZX", Decrypt) == "XW"
    requires Locatable(m, rest)
    ensures Locatable(m, [['Z', Filler]] + rest)
    ensures Transform(m, [['Z', Filler]] + rest, Decrypt)[0] == 'X'
    ensures Transform(m, [['Z', Filler]] + rest, Decrypt)[1] == 'W'
  {
    assert ['Z', Filler] == "ZX";
    TransformCons(m, "ZX", rest, Decrypt);
  }

  /** playfair_decrypt("ZZZZ", "monarchy") starts with XW. */
  lemma DecryptZZZZ()
    ensures |Playfair("ZZ" + "ZZ", "mona" + "rchy", Decrypt)| > 1
    ensures Playfair("ZZ" + "ZZ", "mona" + "rchy", Decrypt)[0] == 'X'
    ensures Playfair("ZZ" + "ZZ", "mona" + "rchy", Decrypt)[1] == 'W'
  {
    TextZZZZ();
    MatrixMonarchy();
    KeyMatrixIsKeyGrid("mona" + "rchy");
    DecryptZX(Monarchy);
    DecryptionStartsWithXW("ZZ" + "ZZ", "mona" + "rchy", Monarchy);
  }

  /** The decryption of a text prepared to ZX ZX ZX ZX over a key matrix where ZX is
      substituted by XW starts with XW. */
  lemma DecryptionStartsWithXW(text: string, key: string, m: seq<seq<char>>)
    requires KeyMatrix(key) == m && IsGrid(m)
    requires Digraphs(Normalize(text)) == [['Z', Filler]] + ["ZX", "ZX", "ZX"]
    requires Found(m, 'Z') && Found(m, 'X') && SubstituteDigraph(m, "ZX", Decrypt) == "XW"
    ensures |Playfair(text, key, Decrypt)| > 1
    ensures Playfair(text, key, Decrypt)[0] == 'X' && Playfair(text, key, Decrypt)[1] == 'W'
  {
    DecryptStartsWithXW(m, ["ZX", "ZX", "ZX"]);
  }

  /** The round trip needs its precondition: "xx" is prepared to XX XX, and with the key
      "monarchy" it is encrypted to ZZZZ, whose decryption starts with XW and so is not
      XXXX. */
  lemma RoundTripNeedsNoFillerPair()
    ensures Digraphs(Normalize("xx")) == ["XX", "XX"]
    ensures Playfair(Playfair("xx", "mona" + "rchy", Encrypt), "mona" + "rchy", Decrypt) !=
            Flatten(Digraphs(Normalize("xx")))
  {
    TextDoubledX();
    EncryptDoubledX();
    DecryptZZZZ();
    assert Flatten(["XX", "XX"])[1] == 'X';
  }
}
