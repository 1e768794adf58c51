/** The 5×5 key matrix (create_matrix) and the position lookup (find_position). */
module Matrix {
  import opened Letters
  import opened KeySchedule

  /** A matrix has at least 5 rows of at least 5 letters: find_position reads cells
      (r, c) with r, c in [0, 4] and nothing else. */
  predicate IsGrid(m: seq<seq<char>>) {
    |m| >= 5 && forall r :: 0 <= r < 5 ==> |m[r]| >= 5
  }

  predicate InRange(r: int, c: int) {
    0 <= r < 5 && 0 <= c < 5
  }

  /** ch occurs in one of the 25 cells of m. */
  ghost predicate Occurs(m: seq<seq<char>>, ch: char)
    requires IsGrid(m)
  {
    exists r, c :: InRange(r, c) && m[r][c] == ch
  }

  /** No two of the 25 cells of m hold the same letter. */
  ghost predicate CellsDistinct(m: seq<seq<char>>)
    requires IsGrid(m)
  {
    forall r1, c1, r2, c2 :: InRange(r1, c1) && InRange(r2, c2) && m[r1][c1] == m[r2][c2] ==>
      r1 == r2 && c1 == c2
  }

  /** A matrix as create_matrix builds it: a 5×5 grid whose cells are the 25 symbols,
      each exactly once. */
  ghost predicate IsKeyGrid(m: seq<seq<char>>) {
    && |m| == 5 && (forall r :: 0 <= r < 5 ==> |m[r]| == 5)
    && CellsDistinct(m)
    && (forall r, c :: InRange(r, c) ==> IsSymbol(m[r][c]))
    && (forall ch :: IsSymbol(ch) ==> Occurs(m, ch))
  }

  /** A 25-letter sequence cut into 5 rows of 5. */
  function Rows(ks: string): (m: seq<seq<char>>)
    requires |ks| == 25
    ensures |m| == 5 && forall r :: 0 <= r < 5 ==> |m[r]| == 5
    ensures forall r, c :: InRange(r, c) ==> m[r][c] == ks[5 * r + c]
  {
    seq(5, r requires 0 <= r < 5 => ks[5 * r .. 5 * r + 5])
  }

  /** The rows of a 25-letter sequence are its five slices of five. */
  lemma RowsOf(ks: string, a: string, b: string, c: string, d: string, e: string)
    requires |ks| == 25
    requires ks[0..5] == a && ks[5..10] == b && ks[10..15] == c && ks[15..20] == d && ks[20..25] == e
    ensures Rows(ks) == [a, b, c, d, e]
  {
  }

  /** create_matrix as a function: the key sequence of key cut into 5 rows of 5. */
  function KeyMatrix(key: string): (m: seq<seq<char>>)
    ensures IsGrid(m) && |m| == 5
  {
    Rows(KeySequence(key))
  }

  /** The key matrix holds every symbol exactly once. */
  lemma KeyMatrixIsKeyGrid(key: string)
    ensures IsKeyGrid(KeyMatrix(key))
  {
    var ks := KeySequence(key);
    var m := Rows(ks);
    forall r1, c1, r2, c2 | InRange(r1, c1) && InRange(r2, c2) && m[r1][c1] == m[r2][c2]
      ensures r1 == r2 && c1 == c2
    {
      assert ks[5 * r1 + c1] == ks[5 * r2 + c2];
      assert 5 * r1 + c1 == 5 * r2 + c2;
    }
    forall r, c | InRange(r, c)
      ensures IsSymbol(m[r][c])
    {
      assert m[r][c] == ks[5 * r + c];
    }
    forall ch | IsSymbol(ch)
      ensures Occurs(m, ch)
    {
      var i :| 0 <= i < 25 && ks[i] == ch;
      assert m[i / 5][i % 5] == ch;
    }
  }

  /** create_matrix: append the five slices of the key sequence, row by row. */
  method CreateMatrix(key: string) returns (matrix: seq<seq<char>>)
    ensures matrix == KeyMatrix(key)
  {
    var ks := PrepareKey(key);
    matrix := [];
    for i := 0 to 5
      invariant |matrix| == i
      invariant forall r :: 0 <= r < i ==> matrix[r] == ks[5 * r .. 5 * r + 5]
    {
      matrix := matrix + [ks[i * 5 .. (i + 1) * 5]];
    }
    assert matrix == Rows(ks);
  }

  /** The first column at or after c of row holding ch, or -1. */
  function ColumnOf(row: seq<char>, ch: char, c: nat): (col: int)
    requires |row| >= 5 && c <= 5
    ensures col == -1 || (c <= col < 5 && row[col] == ch)
    decreases 5 - c
  {
    if c == 5 then -1
    else if row[c] == ch then c
    else ColumnOf(row, ch, c + 1)
  }

  /** ColumnOf answers the first column at or after c holding ch, or -1 when there is
      none. */
  lemma {:induction false} ColumnOfSpec(row: seq<char>, ch: char, c: nat)
    requires |row| >= 5 && c <= 5
    ensures var col := ColumnOf(row, ch, c);
      (col == -1 || (c <= col < 5 && row[col] == ch)) &&
      forall j :: c <= j < 5 && (col == -1 || j < col) ==> row[j] != ch
    decreases 5 - c
  {
    if c < 5 && row[c] != ch {
      ColumnOfSpec(row, ch, c + 1);
    }
  }

  /** The first cell, in row-major order from row r on, holding ch, or (-1, -1). */
  function PositionFrom(m: seq<seq<char>>, ch: char, r: nat): (p: (int, int))
    requires IsGrid(m) && r <= 5
    ensures p == (-1, -1) || (r <= p.0 && InRange(p.0, p.1) && m[p.0][p.1] == ch)
    decreases 5 - r
  {
    if r == 5 then (-1, -1)
    else
      var col := ColumnOf(m[r], ch, 0);
      if col != -1 then (r, col) else PositionFrom(m, ch, r + 1)
  }

  /** PositionFrom answers the first cell from row r on holding ch, or (-1, -1) when
      there is none. */
  lemma {:induction false} PositionFromSpec(m: seq<seq<char>>, ch: char, r: nat)
    requires IsGrid(m) && r <= 5
    ensures var p := PositionFrom(m, ch, r);
      (p == (-1, -1) || (r <= p.0 && InRange(p.0, p.1) && m[p.0][p.1] == ch)) &&
      forall i, j :: r <= i < 5 && 0 <= j < 5 && (p == (-1, -1) || i < p.0 || (i == p.0 && j < p.1))
        ==> m[i][j] != ch
    decreases 5 - r
  {
    if r < 5 {
      ColumnOfSpec(m[r], ch, 0);
      if ColumnOf(m[r], ch, 0) == -1 {
        PositionFromSpec(m, ch, r + 1);
      }
    }
  }

  /** The position find_position reports: the first cell holding ch in row-major
      order, or (-1, -1) when no cell holds it. */
  function Position(m: seq<seq<char>>, ch: char): (p: (int, int))
    requires IsGrid(m)
    ensures p == (-1, -1) || (InRange(p.0, p.1) && m[p.0][p.1] == ch)
  {
    PositionFrom(m, ch, 0)
  }

  /** Position answers (-1, -1) exactly for the letters that do not occur in m, and
      otherwise a cell holding the letter, no earlier cell holding it. */
  lemma PositionSpec(m: seq<seq<char>>, ch: char)
    requires IsGrid(m)
    ensures var p := Position(m, ch);
      (p == (-1, -1) <==> !Occurs(m, ch)) &&
      (p != (-1, -1) ==>
         && InRange(p.0, p.1) && m[p.0][p.1] == ch
         && forall i, j :: InRange(i, j) && (i < p.0 || (i == p.0 && j < p.1)) ==> m[i][j] != ch)
  {
    PositionFromSpec(m, ch, 0);
  }

  /** In a matrix without repeated letters the lookup of a cell's letter answers that
      very cell. */
  lemma PositionOfCell(m: seq<seq<char>>, r: int, c: int)
    requires IsGrid(m) && CellsDistinct(m) && InRange(r, c)
    ensures Position(m, m[r][c]) == (r, c)
  {
    PositionSpec(m, m[r][c]);
    var p := Position(m, m[r][c]);
    assert p != (-1, -1);
  }

  /** In a key grid every symbol is found, and nothing else is. */
  lemma KeyGridLookup(m: seq<seq<char>>, ch: char)
    requires IsKeyGrid(m)
    ensures var p := Position(m, ch);
      (IsSymbol(ch) ==> InRange(p.0, p.1) && m[p.0][p.1] == ch) &&
      (!IsSymbol(ch) ==> p == (-1, -1))
  {
    PositionSpec(m, ch);
  }

  /** find_position: scan the rows, and within a row the columns, returning at the
      first cell that holds ch; (-1, -1) when there is none. */
  method FindPosition(matrix: seq<seq<char>>, ch: char) returns (row: int, col: int)
    requires IsGrid(matrix)
    ensures (row, col) == Position(matrix, ch)
  {
    for r := 0 to 5
      invariant forall i, j :: 0 <= i < r && 0 <= j < 5 ==> matrix[i][j] != ch
    {
      for c := 0 to 5
        invariant forall j :: 0 <= j < c ==> matrix[r][j] != ch
      {
        if matrix[r][c] == ch {
          PositionSpec(matrix, ch);
          return r, c;
        }
      }
    }
    PositionSpec(matrix, ch);
    return -1, -1;
  }
}
