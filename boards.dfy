/**
 * The crossword grid as a value. The program keeps a 21x21 puzzle inside a
 * one-cell border of blocked squares, so the stored grid is 23x23. A cell
 * holds '#' (blocked), ' ' (blank) or any other character (a letter; the
 * '#' inside a multi-word entry is also written into the grid).
 *
 * A run starts at (row, col) and goes right (across > 0) or down
 * (across == 0); its k-th cell is Pos(row, col, across, k).
 */
module Boards {

  /** Side of the puzzle interior. */
  const SIZE := 21
  /** Side of the stored grid: the interior plus the border on every side. */
  const DIM := SIZE + 2

  const BLOCK := '#'
  const BLANK := ' '

  type Board = seq<seq<char>>
  type Cell = (int, int)

  predicate Shaped(b: Board)
  {
    |b| == DIM && forall r :: 0 <= r < DIM ==> |b[r]| == DIM
  }

  predicate InBoard(p: Cell)
  {
    0 <= p.0 < DIM && 0 <= p.1 < DIM
  }

  predicate IsInterior(row: int, col: int)
  {
    1 <= row <= SIZE && 1 <= col <= SIZE
  }

  function At(b: Board, p: Cell): char
    requires Shaped(b) && InBoard(p)
  {
    b[p.0][p.1]
  }

  /** The outer ring of the grid is blocked. */
  predicate Bordered(b: Board)
    requires Shaped(b)
  {
    forall k :: 0 <= k < DIM ==>
      b[0][k] == BLOCK && b[DIM - 1][k] == BLOCK && b[k][0] == BLOCK && b[k][DIM - 1] == BLOCK
  }

  /** An open cell of a bordered grid is an interior cell. */
  lemma OpenIsInterior(b: Board, p: Cell)
    requires Shaped(b) && Bordered(b) && InBoard(p) && At(b, p) != BLOCK
    ensures IsInterior(p.0, p.1)
  {
    assert b[0][p.1] == BLOCK && b[DIM - 1][p.1] == BLOCK;
    assert b[p.0][0] == BLOCK && b[p.0][DIM - 1] == BLOCK;
  }

  /** The k-th cell of the run from (row, col). */
  function Pos(row: int, col: int, across: int, k: int): Cell
  {
    if across > 0 then (row, col + k) else (row + k, col)
  }

  /** The offset of cell p along the run from (row, col), or -1 when p is
      not on the line of that run. */
  function RunIndex(row: int, col: int, across: int, p: Cell): int
  {
    if across > 0 then (if p.0 == row then p.1 - col else -1)
    else (if p.1 == col then p.0 - row else -1)
  }

  lemma RunIndexOfPos(row: int, col: int, across: int, k: nat)
    ensures RunIndex(row, col, across, Pos(row, col, across, k)) == k
  {
  }

  /** Every cell a word of length |w| covers from (row, col) lies in the grid. */
  predicate RunInBoard(w: string, row: int, col: int, across: int)
  {
    forall k :: 0 <= k < |w| ==> InBoard(Pos(row, col, across, k))
  }

  /** (row, col) starts a slot: it is open, the cell before it is blocked and
      the cell after it is open. */
  predicate IsAnchor(b: Board, row: int, col: int, across: int)
    requires Shaped(b) && IsInterior(row, col)
  {
    At(b, (row, col)) != BLOCK
    && At(b, Pos(row, col, across, -1)) == BLOCK
    && At(b, Pos(row, col, across, 1)) != BLOCK
  }

  /** The offset of the first blocked cell at or after offset k of the run. */
  function RunFrom(b: Board, row: int, col: int, across: int, k: nat): (n: nat)
    requires Shaped(b) && Bordered(b) && InBoard(Pos(row, col, across, k))
    ensures k <= n && InBoard(Pos(row, col, across, n)) && At(b, Pos(row, col, across, n)) == BLOCK
    ensures forall m :: k <= m < n ==>
      InBoard(Pos(row, col, across, m)) && At(b, Pos(row, col, across, m)) != BLOCK
    decreases if across > 0 then DIM - col - k else DIM - row - k
  {
    if At(b, Pos(row, col, across, k)) == BLOCK then k
    else
      OpenIsInterior(b, Pos(row, col, across, k));
      RunFrom(b, row, col, across, k + 1)
  }

  /** The number of open cells from (row, col) up to the next blocked cell. */
  function RunLength(b: Board, row: int, col: int, across: int): (n: nat)
    requires Shaped(b) && Bordered(b) && InBoard((row, col))
    ensures InBoard(Pos(row, col, across, n)) && At(b, Pos(row, col, across, n)) == BLOCK
    ensures forall m :: 0 <= m < n ==>
      InBoard(Pos(row, col, across, m)) && At(b, Pos(row, col, across, m)) != BLOCK
  {
    assert Pos(row, col, across, 0) == (row, col);
    RunFrom(b, row, col, across, 0)
  }

  /** How many of the first len cells of the run are not blank. */
  function NonBlank(b: Board, row: int, col: int, across: int, len: nat): (n: nat)
    requires Shaped(b)
    requires forall m :: 0 <= m < len ==> InBoard(Pos(row, col, across, m))
    ensures n <= len
  {
    if len == 0 then 0
    else
      NonBlank(b, row, col, across, len - 1)
      + (if At(b, Pos(row, col, across, len - 1)) != BLANK then 1 else 0)
  }

  /** The count is 0 exactly when every cell is blank, and len exactly when
      none is. */
  lemma {:induction false} NonBlankCounts(b: Board, row: int, col: int, across: int, len: nat)
    requires Shaped(b)
    requires forall m :: 0 <= m < len ==> InBoard(Pos(row, col, across, m))
    ensures NonBlank(b, row, col, across, len) == 0
        <==> forall m :: 0 <= m < len ==> At(b, Pos(row, col, across, m)) == BLANK
    ensures NonBlank(b, row, col, across, len) == len
        <==> forall m :: 0 <= m < len ==> At(b, Pos(row, col, across, m)) != BLANK
  {
    if len > 0 {
      NonBlankCounts(b, row, col, across, len - 1);
    }
  }

  /** The intersection count of the slot at (row, col): its cells that
      already hold something. */
  function Crossings(b: Board, row: int, col: int, across: int): nat
    requires Shaped(b) && Bordered(b) && InBoard((row, col))
  {
    NonBlank(b, row, col, across, RunLength(b, row, col, across))
  }

  /** A slot is at least two cells long and has no more crossings than cells. */
  lemma AnchorRun(b: Board, row: int, col: int, across: int)
    requires Shaped(b) && Bordered(b) && IsInterior(row, col) && IsAnchor(b, row, col, across)
    ensures RunLength(b, row, col, across) >= 2
    ensures Crossings(b, row, col, across) <= RunLength(b, row, col, across)
  {
    assert Pos(row, col, across, 0) == (row, col);
  }

  /** Two boards with the same blocked cells. */
  predicate SamePattern(b1: Board, b2: Board)
  {
    Shaped(b1) && Shaped(b2)
    && forall r, c :: 0 <= r < DIM && 0 <= c < DIM ==> (b1[r][c] == BLOCK <==> b2[r][c] == BLOCK)
  }

  lemma SamePatternBordered(b1: Board, b2: Board)
    requires SamePattern(b1, b2) && Bordered(b2)
    ensures Bordered(b1)
  {
    forall k | 0 <= k < DIM
      ensures b1[0][k] == BLOCK && b1[DIM - 1][k] == BLOCK && b1[k][0] == BLOCK && b1[k][DIM - 1] == BLOCK
    {
      assert b2[0][k] == BLOCK && b2[DIM - 1][k] == BLOCK && b2[k][0] == BLOCK && b2[k][DIM - 1] == BLOCK;
    }
  }

  /** Run lengths depend only on where the blocked cells are. */
  lemma {:induction false} RunFromSamePattern(b1: Board, b2: Board, row: int, col: int, across: int, k: nat)
    requires SamePattern(b1, b2) && Bordered(b1) && Bordered(b2)
    requires InBoard(Pos(row, col, across, k))
    ensures RunFrom(b1, row, col, across, k) == RunFrom(b2, row, col, across, k)
    decreases if across > 0 then DIM - col - k else DIM - row - k
  {
    var p := Pos(row, col, across, k);
    assert At(b1, p) == BLOCK <==> At(b2, p) == BLOCK;
    if At(b1, p) != BLOCK {
      OpenIsInterior(b1, p);
      RunFromSamePattern(b1, b2, row, col, across, k + 1);
    }
  }

  lemma RunLengthSamePattern(b1: Board, b2: Board, row: int, col: int, across: int)
    requires SamePattern(b1, b2) && Bordered(b1) && Bordered(b2) && InBoard((row, col))
    ensures RunLength(b1, row, col, across) == RunLength(b2, row, col, across)
  {
    assert Pos(row, col, across, 0) == (row, col);
    RunFromSamePattern(b1, b2, row, col, across, 0);
  }

  /** Boards are equal when they agree on every cell. */
  lemma BoardExt(a: Board, b: Board)
    requires Shaped(a) && Shaped(b)
    requires forall r, c :: 0 <= r < DIM && 0 <= c < DIM ==> a[r][c] == b[r][c]
    ensures a == b
  {
    forall r | 0 <= r < DIM
      ensures a[r] == b[r]
    {
      assert forall c :: 0 <= c < DIM ==> a[r][c] == b[r][c];
    }
  }

  /** The board with cell p set to x. */
  function Write(b: Board, p: Cell, x: char): (r: Board)
    requires Shaped(b) && InBoard(p)
    ensures Shaped(r)
    ensures forall q, c :: 0 <= q < DIM && 0 <= c < DIM ==>
      r[q][c] == (if (q, c) == p then x else b[q][c])
  {
    b[p.0 := b[p.0][p.1 := x]]
  }

  /** Writes w[k..] into the run, one cell at a time, from offset k on. */
  function FillFrom(b: Board, w: string, row: int, col: int, across: int, k: nat): (r: Board)
    requires Shaped(b) && k <= |w| && RunInBoard(w, row, col, across)
    ensures Shaped(r)
    decreases |w| - k
  {
    if k == |w| then b
    else FillFrom(Write(b, Pos(row, col, across, k), w[k]), w, row, col, across, k + 1)
  }

  /** From offset k on, the cells of the run hold the word's characters and
      every other cell is as before. */
  lemma {:induction false} FillFromCells(b: Board, w: string, row: int, col: int, across: int, k: nat)
    requires Shaped(b) && k <= |w| && RunInBoard(w, row, col, across)
    ensures forall q, c :: 0 <= q < DIM && 0 <= c < DIM ==>
      FillFrom(b, w, row, col, across, k)[q][c]
        == (if k <= RunIndex(row, col, across, (q, c)) < |w| then w[RunIndex(row, col, across, (q, c))] else b[q][c])
    decreases |w| - k
  {
    if k < |w| {
      var p := Pos(row, col, across, k);
      RunIndexOfPos(row, col, across, k);
      FillFromCells(Write(b, p, w[k]), w, row, col, across, k + 1);
      forall q, c | 0 <= q < DIM && 0 <= c < DIM && RunIndex(row, col, across, (q, c)) == k
        ensures (q, c) == p
      {
      }
    }
  }

  /** The board after w is written along the run from (row, col). */
  function FillBoard(b: Board, w: string, row: int, col: int, across: int): (r: Board)
    requires Shaped(b) && RunInBoard(w, row, col, across)
    ensures Shaped(r)
  {
    FillFrom(b, w, row, col, across, 0)
  }

  /** After a fill exactly the |w| cells of the run hold the word's
      characters, in order; every other cell is as before. */
  lemma FillBoardCells(b: Board, w: string, row: int, col: int, across: int)
    requires Shaped(b) && RunInBoard(w, row, col, across)
    ensures forall k :: 0 <= k < |w| ==> At(FillBoard(b, w, row, col, across), Pos(row, col, across, k)) == w[k]
    ensures forall q, c :: 0 <= q < DIM && 0 <= c < DIM ==>
      FillBoard(b, w, row, col, across)[q][c]
        == (if 0 <= RunIndex(row, col, across, (q, c)) < |w| then w[RunIndex(row, col, across, (q, c))] else b[q][c])
  {
    FillFromCells(b, w, row, col, across, 0);
    forall k | 0 <= k < |w|
      ensures At(FillBoard(b, w, row, col, across), Pos(row, col, across, k)) == w[k]
    {
      RunIndexOfPos(row, col, across, k);
    }
  }

  /** A word agrees with the blocked cells along its run: it stays inside
      the grid and has '#' exactly where the grid is blocked. */
  predicate Matches(b: Board, w: string, row: int, col: int, across: int)
    requires Shaped(b)
  {
    forall k :: 0 <= k < |w| ==>
      InBoard(Pos(row, col, across, k))
      && (w[k] == BLOCK <==> At(b, Pos(row, col, across, k)) == BLOCK)
  }

  lemma MatchesSamePattern(b1: Board, b2: Board, w: string, row: int, col: int, across: int)
    requires SamePattern(b1, b2) && Matches(b1, w, row, col, across)
    ensures Matches(b2, w, row, col, across)
  {
  }

  /** Writing a word that agrees with the blocked cells leaves them as they are. */
  lemma FillKeepsPattern(b: Board, w: string, row: int, col: int, across: int)
    requires Shaped(b) && Matches(b, w, row, col, across)
    ensures SamePattern(FillBoard(b, w, row, col, across), b)
  {
    var r := FillBoard(b, w, row, col, across);
    FillBoardCells(b, w, row, col, across);
    forall q, c | 0 <= q < DIM && 0 <= c < DIM
      ensures r[q][c] == BLOCK <==> b[q][c] == BLOCK
    {
      var k := RunIndex(row, col, across, (q, c));
      if 0 <= k < |w| {
        assert Pos(row, col, across, k) == (q, c);
      }
    }
  }

  /** The grid with every open cell reset to blank. */
  function Wipe(b: Board): (r: Board)
    requires Shaped(b)
    ensures Shaped(r) && SamePattern(r, b)
    ensures forall q, c :: 0 <= q < DIM && 0 <= c < DIM ==> r[q][c] == BLOCK || r[q][c] == BLANK
  {
    seq(DIM, q requires 0 <= q < DIM =>
      seq(DIM, c requires 0 <= c < DIM => if b[q][c] == BLOCK then BLOCK else BLANK))
  }

  /** Wiping depends only on the blocked cells. */
  lemma WipeSamePattern(b1: Board, b2: Board)
    requires SamePattern(b1, b2)
    ensures Wipe(b1) == Wipe(b2)
  {
    var w1, w2 := Wipe(b1), Wipe(b2);
    forall r, c | 0 <= r < DIM && 0 <= c < DIM
      ensures w1[r][c] == w2[r][c]
    {
      assert w1[r][c] == BLOCK <==> b1[r][c] == BLOCK;
    }
    BoardExt(w1, w2);
  }

  /** A board is its own wipe exactly when no cell holds a letter. */
  lemma WipeFixed(b: Board)
    requires Shaped(b)
    ensures Wipe(b) == b <==> forall q, c :: 0 <= q < DIM && 0 <= c < DIM ==> b[q][c] == BLOCK || b[q][c] == BLANK
  {
    if forall q, c :: 0 <= q < DIM && 0 <= c < DIM ==> b[q][c] == BLOCK || b[q][c] == BLANK {
      var w := Wipe(b);
      forall q, c | 0 <= q < DIM && 0 <= c < DIM
        ensures w[q][c] == b[q][c]
      {
        assert w[q][c] == BLOCK <==> b[q][c] == BLOCK;
      }
      BoardExt(w, b);
    }
  }

  /** The contents of a 23x23 grid array as a board. */
  function Snapshot(g: array2<char>): (b: Board)
    reads g
    requires g.Length0 == DIM && g.Length1 == DIM
    ensures Shaped(b)
    ensures forall q, c :: 0 <= q < DIM && 0 <= c < DIM ==> b[q][c] == g[q, c]
  {
    seq(DIM, q requires 0 <= q < DIM reads g =>
      seq(DIM, c requires 0 <= c < DIM reads g => g[q, c]))
  }
}
