/**
 * Slot locator: the scan at the top of each search iteration. It visits the
 * interior cells row by row, and at each cell first the down slot and then
 * the across slot anchored there, skipping slots already in the history. It
 * keeps the slot with the most crossings, breaking ties by the greater
 * length; both comparisons are strict, so among equal slots the first one
 * visited stays.
 */
module Slots {
  import opened Boards
  import opened SlotKeys

  /** The running best of the scan: (bestI, bestJ, bestAcr, maxL, maxN).
      A length of 0 means that no slot was found. */
  datatype Slot = Slot(row: int, col: int, across: int, length: int, crossings: int)

  /** Position of (row, col, across) in scan order: row-major, down before
      across. (46 is 2 * DIM, written out so that the rank stays linear.) */
  function Rank(row: int, col: int, across: int): int
  {
    row * 46 + col * 2 + across
  }

  /** (n1, l1) is lexicographically greater than (n2, l2). */
  predicate Outranks(n1: int, l1: int, n2: int, l2: int)
  {
    n1 > n2 || (n1 == n2 && l1 > l2)
  }

  /** A slot the scan considers: an anchor whose key is not in the history. */
  ghost predicate IsCandidate(b: Board, hist: seq<Entry>, row: int, col: int, across: int)
    requires Shaped(b)
  {
    IsInterior(row, col) && 0 <= across <= 1
    && IsAnchor(b, row, col, across) && Key(across, row, col) !in Keys(hist)
  }

  ghost predicate NoCandidate(b: Board, hist: seq<Entry>)
    requires Shaped(b)
  {
    forall row, col, across :: !IsCandidate(b, hist, row, col, across)
  }

  /** s is a candidate and records its own length and crossings. */
  ghost predicate Describes(b: Board, hist: seq<Entry>, s: Slot)
    requires Shaped(b) && Bordered(b)
  {
    IsCandidate(b, hist, s.row, s.col, s.across)
    && s.length == RunLength(b, s.row, s.col, s.across)
    && s.crossings == Crossings(b, s.row, s.col, s.across)
  }

  /** No candidate satisfying the bound outranks s, and s comes first among
      the candidates that tie with it. */
  ghost predicate Dominates(b: Board, hist: seq<Entry>, s: Slot, bound: int)
    requires Shaped(b) && Bordered(b)
  {
    forall row, col, across :: IsCandidate(b, hist, row, col, across) && Rank(row, col, across) < bound ==>
      !Outranks(Crossings(b, row, col, across), RunLength(b, row, col, across), s.crossings, s.length)
      && (Crossings(b, row, col, across) == s.crossings && RunLength(b, row, col, across) == s.length
          ==> Rank(s.row, s.col, s.across) <= Rank(row, col, across))
  }

  /** The scan's running best after it has visited every position before `bound`. */
  ghost predicate BestBefore(b: Board, hist: seq<Entry>, s: Slot, bound: int)
    requires Shaped(b) && Bordered(b)
  {
    if s.length == 0 then
      s.crossings == 0
      && forall row, col, across :: IsCandidate(b, hist, row, col, across) ==> Rank(row, col, across) >= bound
    else
      Describes(b, hist, s) && Rank(s.row, s.col, s.across) < bound && Dominates(b, hist, s, bound)
  }

  /** The slot the scan must pick: the greatest (crossings, length) among all
      candidates, and the first in scan order among those that tie. */
  ghost predicate IsBest(b: Board, hist: seq<Entry>, s: Slot)
    requires Shaped(b) && Bordered(b)
  {
    Describes(b, hist, s) && Dominates(b, hist, s, Rank(DIM, 0, 0))
  }

  lemma RankInjective(r1: int, c1: int, a1: int, r2: int, c2: int, a2: int)
    requires IsInterior(r1, c1) && IsInterior(r2, c2) && 0 <= a1 <= 1 && 0 <= a2 <= 1
    requires Rank(r1, c1, a1) == Rank(r2, c2, a2)
    ensures r1 == r2 && c1 == c2 && a1 == a2
  {
  }

  /** There is only one best slot. */
  lemma BestUnique(b: Board, hist: seq<Entry>, s1: Slot, s2: Slot)
    requires Shaped(b) && Bordered(b) && IsBest(b, hist, s1) && IsBest(b, hist, s2)
    ensures s1 == s2
  {
    assert Rank(s1.row, s1.col, s1.across) < Rank(DIM, 0, 0);
    assert Rank(s2.row, s2.col, s2.across) < Rank(DIM, 0, 0);
    RankInjective(s1.row, s1.col, s1.across, s2.row, s2.col, s2.across);
  }

  /** Visiting one position keeps the running best correct: a candidate
      replaces the running best exactly when it strictly outranks it. */
  lemma ScanStep(b: Board, hist: seq<Entry>, s: Slot, s': Slot, row: int, col: int, across: int)
    requires Shaped(b) && Bordered(b) && IsInterior(row, col) && 0 <= across <= 1
    requires BestBefore(b, hist, s, Rank(row, col, across))
    requires if IsCandidate(b, hist, row, col, across)
                && Outranks(Crossings(b, row, col, across), RunLength(b, row, col, across), s.crossings, s.length)
             then s' == Slot(row, col, across, RunLength(b, row, col, across), Crossings(b, row, col, across))
             else s' == s
    ensures BestBefore(b, hist, s', Rank(row, col, across) + 1)
  {
    var bound := Rank(row, col, across);
    if IsCandidate(b, hist, row, col, across) {
      AnchorRun(b, row, col, across);
    }
    forall r, c, a | IsCandidate(b, hist, r, c, a) && Rank(r, c, a) == bound
      ensures r == row && c == col && a == across
    {
      RankInjective(r, c, a, row, col, across);
    }
  }

  /** No candidate sits between the last cell of a row and the first of the next. */
  lemma RowEnd(b: Board, hist: seq<Entry>, s: Slot, row: int)
    requires Shaped(b) && Bordered(b)
    requires BestBefore(b, hist, s, Rank(row, DIM - 1, 0))
    ensures BestBefore(b, hist, s, Rank(row + 1, 1, 0))
  {
    var lo, hi := Rank(row, DIM - 1, 0), Rank(row + 1, 1, 0);
    forall r, c, a | IsCandidate(b, hist, r, c, a)
      ensures Rank(r, c, a) < lo || Rank(r, c, a) >= hi
    {
      assert IsInterior(r, c) && 0 <= a <= 1;
      if r <= row {
        assert Rank(r, c, a) <= row * 46 + 43;
      } else {
        assert Rank(r, c, a) >= row * 46 + 48;
      }
    }
    Widen(b, hist, s, lo, hi);
  }

  /** The running best stays correct across positions that hold no candidate. */
  lemma Widen(b: Board, hist: seq<Entry>, s: Slot, lo: int, hi: int)
    requires Shaped(b) && Bordered(b) && lo <= hi
    requires BestBefore(b, hist, s, lo)
    requires forall r, c, a :: IsCandidate(b, hist, r, c, a) ==> Rank(r, c, a) < lo || Rank(r, c, a) >= hi
    ensures BestBefore(b, hist, s, hi)
  {
  }

  /** The inner loops of the scan: the length of the run from (row, col) and
      the number of its cells that are not blank. */
  method MeasureRun(grid: array2<char>, row: int, col: int, across: int) returns (l: nat, n: nat)
    requires grid.Length0 == DIM && grid.Length1 == DIM && Bordered(Snapshot(grid)) && InBoard((row, col))
    ensures l == RunLength(Snapshot(grid), row, col, across)
    ensures n == Crossings(Snapshot(grid), row, col, across)
  {
    ghost var b := Snapshot(grid);
    ghost var len := RunLength(b, row, col, across);
    l, n := 0, 0;
    while (if across > 0 then grid[row, col + l] else grid[row + l, col]) != BLOCK
      invariant l <= len && n == NonBlank(b, row, col, across, l)
      invariant InBoard(Pos(row, col, across, l))
      decreases len - l
    {
      if (if across > 0 then grid[row, col + l] else grid[row + l, col]) != BLANK {
        n := n + 1;
      }
      l := l + 1;
    }
  }

  /** One test of the scan (down when across == 0, across when across == 1)
      at cell (row, col): when it anchors a slot not yet in the history and
      that slot strictly outranks the running best, it becomes the best. */
  method Consider(grid: array2<char>, hist: seq<Entry>, keys: set<int>, row: int, col: int, across: int,
                  s: Slot) returns (s': Slot)
    requires grid.Length0 == DIM && grid.Length1 == DIM && Bordered(Snapshot(grid))
    requires keys == Keys(hist) && IsInterior(row, col) && 0 <= across <= 1
    requires BestBefore(Snapshot(grid), hist, s, Rank(row, col, across))
    ensures BestBefore(Snapshot(grid), hist, s', Rank(row, col, across) + 1)
  {
    ghost var b := Snapshot(grid);
    var before, after := Pos(row, col, across, -1), Pos(row, col, across, 1);
    s' := s;
    if grid[row, col] != BLOCK && grid[before.0, before.1] == BLOCK && grid[after.0, after.1] != BLOCK {
      if Key(across, row, col) !in keys {
        var l, n := MeasureRun(grid, row, col, across);
        if n > s.crossings || (n == s.crossings && l > s.length) {
          s' := Slot(row, col, across, l, n);
        }
      }
    }
    assert IsCandidate(b, hist, row, col, across)
      <==> grid[row, col] != BLOCK && grid[before.0, before.1] == BLOCK && grid[after.0, after.1] != BLOCK
           && Key(across, row, col) !in keys;
    ScanStep(b, hist, s, s', row, col, across);
  }

  /** The scan of `main`: returns the best un-attempted slot, or a slot of
      length 0 when there is none. */
  method LocateSlot(grid: array2<char>, hist: seq<Entry>) returns (best: Slot)
    requires grid.Length0 == DIM && grid.Length1 == DIM && Bordered(Snapshot(grid))
    ensures best.length == 0 <==> NoCandidate(Snapshot(grid), hist)
    ensures best.length != 0 ==> IsBest(Snapshot(grid), hist, best)
    ensures best.length != 0 ==> 2 <= best.length && best.crossings <= best.length
  {
    ghost var b := Snapshot(grid);
    var keys := Keys(hist);
    best := Slot(0, 0, 0, 0, 0);
    for i := 1 to grid.Length0 - 1
      invariant BestBefore(b, hist, best, Rank(i, 1, 0))
    {
      for j := 1 to grid.Length1 - 1
        invariant BestBefore(b, hist, best, Rank(i, j, 0))
      {
        best := Consider(grid, hist, keys, i, j, 0, best);
        best := Consider(grid, hist, keys, i, j, 1, best);
      }
      RowEnd(b, hist, best, i);
    }
    forall r, c, a | IsCandidate(b, hist, r, c, a)
      ensures Rank(r, c, a) < Rank(DIM - 1, 1, 0)
    {
      assert IsInterior(r, c);
    }
    Widen(b, hist, best, Rank(DIM - 1, 1, 0), Rank(DIM, 0, 0));
    if best.length != 0 {
      AnchorRun(b, best.row, best.col, best.across);
    }
  }
}
