/** Text preparation (prepare_text): the normalised letter stream cut greedily into
    two-letter digraphs, with the filler X after a letter that is doubled and after an
    odd last letter. */
module Text {
  import opened Letters

  /** The digraphs of a normalised letter stream t, scanning left to right: a lone last
      letter is padded with X; a letter equal to the next one is paired with X and the
      next one starts the following digraph; otherwise two letters form a digraph. */
  function Digraphs(t: string): (ds: seq<string>)
    ensures forall i :: 0 <= i < |ds| ==> |ds[i]| == 2
    ensures forall i :: 0 <= i < |ds| ==> ds[i][0] in t && (ds[i][1] in t || ds[i][1] == Filler)
    ensures forall i :: 0 <= i < |ds| ==> ds[i][0] == ds[i][1] ==> ds[i][1] == Filler
    ensures ds == [] <==> t == []
    ensures AllSymbols(t) ==> SymbolDigraphs(ds)
    decreases |t|
  {
    if |t| == 0 then []
    else if |t| == 1 then [[t[0], Filler]]
    else if t[0] == t[1] then [[t[0], Filler]] + Digraphs(t[1..])
    else [[t[0], t[1]]] + Digraphs(t[2..])
  }

  /** Digraphs of two letters of the alphabet. */
  predicate SymbolDigraphs(ds: seq<string>) {
    forall i :: 0 <= i < |ds| ==> |ds[i]| == 2 && IsSymbol(ds[i][0]) && IsSymbol(ds[i][1])
  }

  /** The letters of the digraphs, in order: what ' '.join followed by split() and the
      per-digraph concatenation see. */
  function Flatten(ds: seq<string>): (s: string)
    ensures (forall i :: 0 <= i < |ds| ==> |ds[i]| == 2) ==> |s| == 2 * |ds|
    decreases |ds|
  {
    if ds == [] then [] else ds[0] + Flatten(ds[1..])
  }

  /** o is t with zero or more filler letters inserted. */
  ghost predicate InsertsFiller(t: string, o: string)
    decreases |o|
  {
    if o == [] then t == []
    else
      (t != [] && o[0] == t[0] && InsertsFiller(t[1..], o[1..])) ||
      (o[0] == Filler && InsertsFiller(t, o[1..]))
  }

  /** The string with every X removed (str.replace('X', '')). */
  function StripFiller(s: string): (r: string)
    ensures Filler !in r
    ensures |r| <= |s|
    decreases |s|
  {
    if s == [] then []
    else (if s[0] == Filler then [] else [s[0]]) + StripFiller(s[1..])
  }

  /** A string without X is left alone by StripFiller. */
  lemma {:induction false} StripFillerNone(s: string)
    requires Filler !in s
    ensures StripFiller(s) == s
    decreases |s|
  {
    if s != [] {
      StripFillerNone(s[1..]);
    }
  }

  /** StripFiller distributes over concatenation. */
  lemma {:induction false} StripFillerAppend(a: string, b: string)
    ensures StripFiller(a + b) == StripFiller(a) + StripFiller(b)
    decreases |a|
  {
    if a == [] {
      assert a + b == b;
    } else {
      var head := if a[0] == Filler then [] else [a[0]];
      assert (a + b)[0] == a[0];
      assert (a + b)[1..] == a[1..] + b;
      assert StripFiller(a + b) == head + StripFiller(a[1..] + b);
      StripFillerAppend(a[1..], b);
      assert head + (StripFiller(a[1..]) + StripFiller(b)) == (head + StripFiller(a[1..])) + StripFiller(b);
    }
  }

  /** Concatenating the digraphs gives back the letter stream with fillers inserted. */
  lemma {:induction false} DigraphsInsertFiller(t: string)
    ensures InsertsFiller(t, Flatten(Digraphs(t)))
    decreases |t|
  {
    var ds := Digraphs(t);
    if |t| == 1 {
      assert Flatten(ds) == [t[0], Filler] + [];
      InsertsFillerAdd([], []);
      InsertsFillerKeep(t, [Filler]);
      assert [t[0]] + [Filler] == [t[0], Filler] + [];
    } else if |t| > 1 {
      var rest := if t[0] == t[1] then t[1..] else t[2..];
      DigraphsInsertFiller(rest);
      var o := Flatten(Digraphs(rest));
      assert ds[1..] == Digraphs(rest);
      assert Flatten(ds) == ds[0] + o;
      if t[0] == t[1] {
        InsertsFillerDouble(t, o);
      } else {
        InsertsFillerPair(t, o);
      }
    }
  }

  /** A doubled letter: the first one is kept and a filler follows it. */
  lemma InsertsFillerDouble(t: string, o: string)
    requires |t| > 1 && InsertsFiller(t[1..], o)
    ensures InsertsFiller(t, [t[0], Filler] + o)
  {
    InsertsFillerAdd(t[1..], o);
    InsertsFillerKeep(t, [Filler] + o);
    assert [t[0]] + ([Filler] + o) == [t[0], Filler] + o;
  }

  /** Two letters kept in a row. */
  lemma InsertsFillerPair(t: string, o: string)
    requires |t| > 1 && InsertsFiller(t[2..], o)
    ensures InsertsFiller(t, [t[0], t[1]] + o)
  {
    assert t[1..][1..] == t[2..];
    InsertsFillerKeep(t[1..], o);
    InsertsFillerKeep(t, [t[1]] + o);
    assert [t[0]] + ([t[1]] + o) == [t[0], t[1]] + o;
  }

  /** Keeping the first letter of t. */
  lemma InsertsFillerKeep(t: string, o: string)
    requires t != [] && InsertsFiller(t[1..], o)
    ensures InsertsFiller(t, [t[0]] + o)
  {
    assert ([t[0]] + o)[1..] == o;
  }

  /** Inserting one filler in front. */
  lemma InsertsFillerAdd(t: string, o: string)
    requires InsertsFiller(t, o)
    ensures InsertsFiller(t, [Filler] + o)
  {
    assert ([Filler] + o)[1..] == o;
  }

  /** Inserting fillers is invisible once the fillers are removed. */
  lemma {:induction false} InsertsFillerStrip(t: string, o: string)
    requires InsertsFiller(t, o)
    ensures StripFiller(o) == StripFiller(t)
    decreases |o|
  {
    if o != [] {
      if t != [] && o[0] == t[0] && InsertsFiller(t[1..], o[1..]) {
        InsertsFillerStrip(t[1..], o[1..]);
      } else {
        InsertsFillerStrip(t, o[1..]);
      }
    }
  }

  /** Removing the fillers from the digraphs gives the letter stream without its X's. */
  lemma DigraphsStripFiller(t: string)
    ensures StripFiller(Flatten(Digraphs(t))) == StripFiller(t)
  {
    DigraphsInsertFiller(t);
    InsertsFillerStrip(t, Flatten(Digraphs(t)));
  }

  /** A digraph XX needs an X in the letter stream. */
  lemma DoubleFillerNeedsX(t: string)
    requires Filler !in t
    ensures forall i :: 0 <= i < |Digraphs(t)| ==> Digraphs(t)[i][0] != Digraphs(t)[i][1]
  {
  }

  /** A digraph of two different letters. */
  predicate IsPair(d: string) {
    |d| == 2 && d[0] != d[1]
  }

  /** Without an XX digraph, every digraph holds two different letters. */
  lemma DigraphsArePairs(t: string)
    requires forall i :: 0 <= i < |Digraphs(t)| ==> Digraphs(t)[i] != [Filler, Filler]
    ensures forall i :: 0 <= i < |Digraphs(t)| ==> IsPair(Digraphs(t)[i])
  {
    var ds := Digraphs(t);
    forall i | 0 <= i < |ds|
      ensures IsPair(ds[i])
    {
      assert ds[i] != [Filler, Filler];
      assert ds[i] == [ds[i][0], ds[i][1]];
    }
  }

  /** Re-digraphing the letters of digraphs of two different letters gives them back. */
  lemma {:induction false} DigraphsOfPairs(ds: seq<string>)
    requires forall i :: 0 <= i < |ds| ==> IsPair(ds[i])
    ensures Digraphs(Flatten(ds)) == ds
    decreases |ds|
  {
    if ds != [] {
      DigraphsOfPairs(ds[1..]);
      var t := Flatten(ds);
      assert t == ds[0] + Flatten(ds[1..]);
      assert t[0] == ds[0][0] && t[1] == ds[0][1];
      assert t[2..] == Flatten(ds[1..]);
      assert [ds[0]] + ds[1..] == ds;
      assert ds[0] == [ds[0][0], ds[0][1]];
    }
  }

  /** Flatten distributes over concatenation. */
  lemma {:induction false} FlattenAppend(a: seq<string>, b: seq<string>)
    ensures Flatten(a + b) == Flatten(a) + Flatten(b)
    decreases |a|
  {
    if a == [] {
      assert a + b == b;
    } else {
      assert (a + b)[0] == a[0];
      assert (a + b)[1..] == a[1..] + b;
      FlattenAppend(a[1..], b);
    }
  }

  /** One step of the scan at index i: the digraph that starts there and where the
      next one starts. */
  lemma DigraphsAt(t: string, i: nat)
    requires i < |t|
    ensures Digraphs(t[i..]) ==
      if i == |t| - 1 then [[t[i], Filler]]
      else if t[i] == t[i + 1] then [[t[i], Filler]] + Digraphs(t[i + 1..])
      else [[t[i], t[i + 1]]] + Digraphs(t[i + 2..])
  {
    var s := t[i..];
    assert s[0] == t[i];
    if i < |t| - 1 {
      assert s[1] == t[i + 1];
      assert s[1..] == t[i + 1..] && s[2..] == t[i + 2..];
    }
  }

  /** prepare_text: walk the normalised text with index i, emitting one digraph per
      pass and advancing i by 1 after a doubled letter and by 2 otherwise. */
  method PrepareText(text: string) returns (digraphs: seq<string>)
    ensures digraphs == Digraphs(Normalize(text))
  {
    var t := Normalize(text);
    var i := 0;
    digraphs := [];
    while i < |t|
      invariant 0 <= i <= |t|
      invariant digraphs + Digraphs(t[i..]) == Digraphs(t)
      decreases |t| - i
    {
      DigraphsAt(t, i);
      if i == |t| - 1 {
        digraphs := digraphs + [[t[i], Filler]];
        break;
      }
      if t[i] == t[i + 1] {
        assert digraphs + ([[t[i], Filler]] + Digraphs(t[i + 1..])) ==
          (digraphs + [[t[i], Filler]]) + Digraphs(t[i + 1..]);
        digraphs := digraphs + [[t[i], Filler]];
        i := i + 1;
      } else {
        assert digraphs + ([[t[i], t[i + 1]]] + Digraphs(t[i + 2..])) ==
          (digraphs + [[t[i], t[i + 1]]]) + Digraphs(t[i + 2..]);
        digraphs := digraphs + [[t[i], t[i + 1]]];
        i := i + 2;
      }
    }
    assert i == |t| ==> digraphs + Digraphs(t[i..]) == digraphs;
  }
}
