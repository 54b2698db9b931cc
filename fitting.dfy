/**
 * Word chooser and filler: `fits`, `chooseWord` and `fill`.
 *
 * A word is tested against the grid cell by cell. An index past the edge of
 * the grid array throws in the program; that exception leaves `chooseWord`
 * altogether and is caught by the search loop as "no word fits", so it is a
 * third verdict here.
 */
module Fitting {
  import opened Wrappers
  import opened Boards

  datatype Verdict = Fit | Misfit | OutOfBounds

  /** The cell whose '#' is required when the word has '#' at offset k. Across
      this is the word's own cell; down the program looks at the cell just
      below the anchor, (row + 1, col), whatever k is. */
  function Probe(row: int, col: int, across: int, k: int): (q: Cell)
    ensures across > 0 ==> q == Pos(row, col, across, k)
    ensures across <= 0 ==> q == Pos(row, col, across, 1)
  {
    if across > 0 then (row, col + k) else (row + 1, col)
  }

  /** The loop of `fits` from offset k on. */
  function FitFrom(b: Board, w: string, row: int, col: int, across: int, k: nat): (v: Verdict)
    requires Shaped(b) && k <= |w|
    ensures v == Fit ==> forall m :: k <= m < |w| ==> InBoard(Pos(row, col, across, m))
    decreases |w| - k
  {
    if k == |w| then Fit
    else
      var p := Pos(row, col, across, k);
      var q := Probe(row, col, across, k);
      if w[k] == BLOCK && !InBoard(q) then OutOfBounds
      else if w[k] == BLOCK && At(b, q) != BLOCK then Misfit
      else if !InBoard(p) then OutOfBounds
      else if At(b, p) != BLANK && At(b, p) != w[k] then Misfit
      else FitFrom(b, w, row, col, across, k + 1)
  }

  /** `fits(word, row, col, across, grid)`, with its out-of-range reads made explicit. */
  function FitVerdict(b: Board, w: string, row: int, col: int, across: int): (v: Verdict)
    requires Shaped(b)
    ensures v == Fit ==> RunInBoard(w, row, col, across)
  {
    FitFrom(b, w, row, col, across, 0)
  }

  /** Offset k of the word is acceptable: its cell is in the grid and is blank
      or already holds w[k], and a '#' at offset k meets a '#' at the probed cell. */
  predicate CellFits(b: Board, w: string, row: int, col: int, across: int, k: nat)
    requires Shaped(b) && k < |w|
  {
    var p := Pos(row, col, across, k);
    var q := Probe(row, col, across, k);
    InBoard(p)
    && (At(b, p) == BLANK || At(b, p) == w[k])
    && (w[k] == BLOCK ==> InBoard(q) && At(b, q) == BLOCK)
  }

  /** `fits` accepts exactly when every offset from k on is acceptable. */
  lemma {:induction false} FitFromIff(b: Board, w: string, row: int, col: int, across: int, k: nat)
    requires Shaped(b) && k <= |w|
    ensures FitFrom(b, w, row, col, across, k) == Fit
        <==> forall m :: k <= m < |w| ==> CellFits(b, w, row, col, across, m)
    decreases |w| - k
  {
    if k < |w| {
      FitFromIff(b, w, row, col, across, k + 1);
      assert FitFrom(b, w, row, col, across, k) == Fit
        <==> CellFits(b, w, row, col, across, k) && FitFrom(b, w, row, col, across, k + 1) == Fit;
    }
  }

  /** `fits` never reads outside the grid when the word's run and the probed
      cell lie inside it. */
  lemma {:induction false} FitFromInBoard(b: Board, w: string, row: int, col: int, across: int, k: nat)
    requires Shaped(b) && k <= |w| && RunInBoard(w, row, col, across)
    requires across > 0 || InBoard((row + 1, col))
    ensures FitFrom(b, w, row, col, across, k) != OutOfBounds
    decreases |w| - k
  {
    if k < |w| {
      assert InBoard(Pos(row, col, across, k));
      FitFromInBoard(b, w, row, col, across, k + 1);
    }
  }

  /** Consequence of the down probe: under a down anchor the cell below is
      open, so a word containing '#' (a multi-word entry) never fits down. */
  lemma DownRejectsMultiWord(b: Board, w: string, row: int, col: int, k: nat)
    requires Shaped(b) && InBoard((row + 1, col)) && At(b, (row + 1, col)) != BLOCK
    requires k < |w| && w[k] == BLOCK
    ensures FitVerdict(b, w, row, col, 0) != Fit
  {
    FitFromIff(b, w, row, col, 0, 0);
    assert !CellFits(b, w, row, col, 0, k);
  }

  /** A word that fits agrees with the blocked cells along its run, provided
      (for a down run) the cell below the anchor is open. */
  lemma FitMatches(b: Board, w: string, row: int, col: int, across: int)
    requires Shaped(b) && FitVerdict(b, w, row, col, across) == Fit
    requires across <= 0 ==> InBoard((row + 1, col)) && At(b, (row + 1, col)) != BLOCK
    ensures Matches(b, w, row, col, across)
  {
    FitFromIff(b, w, row, col, across, 0);
    forall k | 0 <= k < |w|
      ensures InBoard(Pos(row, col, across, k))
      ensures w[k] == BLOCK <==> At(b, Pos(row, col, across, k)) == BLOCK
    {
      assert CellFits(b, w, row, col, across, k);
    }
  }

  /** Once an across word is written in, it fits its own slot. */
  lemma FillThenFitsAcross(b: Board, w: string, row: int, col: int)
    requires Shaped(b) && RunInBoard(w, row, col, 1)
    ensures FitVerdict(FillBoard(b, w, row, col, 1), w, row, col, 1) == Fit
  {
    var r := FillBoard(b, w, row, col, 1);
    FillBoardCells(b, w, row, col, 1);
    FitFromIff(r, w, row, col, 1, 0);
    forall k | 0 <= k < |w|
      ensures CellFits(r, w, row, col, 1, k)
    {
      assert At(r, Pos(row, col, 1, k)) == w[k];
    }
  }

  /** The same for a down word without '#'. */
  lemma FillThenFitsDown(b: Board, w: string, row: int, col: int)
    requires Shaped(b) && RunInBoard(w, row, col, 0)
    requires forall k :: 0 <= k < |w| ==> w[k] != BLOCK
    ensures FitVerdict(FillBoard(b, w, row, col, 0), w, row, col, 0) == Fit
  {
    var r := FillBoard(b, w, row, col, 0);
    FillBoardCells(b, w, row, col, 0);
    FitFromIff(r, w, row, col, 0, 0);
    forall k | 0 <= k < |w|
      ensures CellFits(r, w, row, col, 0, k)
    {
      assert At(r, Pos(row, col, 0, k)) == w[k];
    }
  }

  /** The loop of `chooseWord` over the bin from index k on. */
  function ChooseFrom(b: Board, bin: seq<string>, used: set<string>, row: int, col: int, across: int, k: nat)
    : (r: Option<nat>)
    requires Shaped(b)
    ensures r.Some? ==> k <= r.value < |bin| && bin[r.value] !in used
                        && FitVerdict(b, bin[r.value], row, col, across) == Fit
    decreases |bin| - k
  {
    if k >= |bin| then None
    else if bin[k] in used then ChooseFrom(b, bin, used, row, col, across, k + 1)
    else match FitVerdict(b, bin[k], row, col, across)
      case Fit => Some(k)
      case Misfit => ChooseFrom(b, bin, used, row, col, across, k + 1)
      case OutOfBounds => None
  }

  /** `chooseWord(len, row, col, across, grid, words, used, startAt)`: a bin
      index past the end of `words` throws, which reads as no choice. */
  function Choose(b: Board, words: seq<seq<string>>, len: nat, used: set<string>,
                  row: int, col: int, across: int, startAt: nat): (r: Option<nat>)
    requires Shaped(b)
    ensures r.Some? ==> len < |words| && startAt <= r.value < |words[len]|
                        && words[len][r.value] !in used
                        && FitVerdict(b, words[len][r.value], row, col, across) == Fit
  {
    if len >= |words| then None else ChooseFrom(b, words[len], used, row, col, across, startAt)
  }

  /** k is the first index from `from` on whose word is unused and fits, and
      no unused word before it in the bin made `fits` read outside the grid. */
  ghost predicate FirstFit(b: Board, bin: seq<string>, used: set<string>, row: int, col: int, across: int,
                           from: nat, k: nat)
    requires Shaped(b)
  {
    from <= k < |bin| && bin[k] !in used && FitVerdict(b, bin[k], row, col, across) == Fit
    && forall m :: from <= m < k ==> bin[m] in used || FitVerdict(b, bin[m], row, col, across) == Misfit
  }

  /** `chooseWord` returns k exactly when k is the first fit from the cursor. */
  lemma {:induction false} ChooseFromFirstFit(b: Board, bin: seq<string>, used: set<string>,
                                              row: int, col: int, across: int, from: nat, k: nat)
    requires Shaped(b)
    ensures ChooseFrom(b, bin, used, row, col, across, from) == Some(k)
        <==> FirstFit(b, bin, used, row, col, across, from, k)
    decreases |bin| - from
  {
    if from < |bin| {
      if bin[from] in used || FitVerdict(b, bin[from], row, col, across) == Misfit {
        ChooseFromFirstFit(b, bin, used, row, col, across, from + 1, k);
        if FirstFit(b, bin, used, row, col, across, from, k) {
          assert k != from;
          assert FirstFit(b, bin, used, row, col, across, from + 1, k);
        }
      }
    }
  }

  /** When no unused word of the bin makes `fits` read outside the grid,
      `chooseWord` fails exactly when every word from the cursor on is used
      or does not fit. */
  lemma {:induction false} ChooseFromNone(b: Board, bin: seq<string>, used: set<string>,
                                          row: int, col: int, across: int, from: nat)
    requires Shaped(b)
    requires forall m :: from <= m < |bin| && bin[m] !in used ==>
      FitVerdict(b, bin[m], row, col, across) != OutOfBounds
    ensures ChooseFrom(b, bin, used, row, col, across, from) == None
        <==> forall m :: from <= m < |bin| ==> bin[m] in used || FitVerdict(b, bin[m], row, col, across) != Fit
    decreases |bin| - from
  {
    if from < |bin| {
      ChooseFromNone(b, bin, used, row, col, across, from + 1);
    }
  }

  /** `fits`: a read-only scan of the run with an early exit. */
  method Fits(word: string, row: int, col: int, across: int, grid: array2<char>) returns (v: Verdict)
    requires grid.Length0 == DIM && grid.Length1 == DIM
    ensures v == FitVerdict(Snapshot(grid), word, row, col, across)
    ensures v == Fit <==> forall k :: 0 <= k < |word| ==> CellFits(Snapshot(grid), word, row, col, across, k)
  {
    ghost var b := Snapshot(grid);
    FitFromIff(b, word, row, col, across, 0);
    for l := 0 to |word|
      invariant FitFrom(b, word, row, col, across, 0) == FitFrom(b, word, row, col, across, l)
    {
      var p := Pos(row, col, across, l);
      var q := Probe(row, col, across, l);
      if word[l] == BLOCK {
        if !InBoard(q) {
          return OutOfBounds;
        }
        if grid[q.0, q.1] != BLOCK {
          return Misfit;
        }
      }
      if !InBoard(p) {
        return OutOfBounds;
      }
      if grid[p.0, p.1] != BLANK && grid[p.0, p.1] != word[l] {
        return Misfit;
      }
    }
    return Fit;
  }

  /** `chooseWord`: the first unused word of bin `len`, from `startAt` on, that fits. */
  method ChooseWord(len: nat, row: int, col: int, across: int, grid: array2<char>,
                    words: seq<seq<string>>, used: set<string>, startAt: nat) returns (r: Option<nat>)
    requires grid.Length0 == DIM && grid.Length1 == DIM
    ensures r == Choose(Snapshot(grid), words, len, used, row, col, across, startAt)
    ensures forall k: nat :: r == Some(k) <==> len < |words| && FirstFit(Snapshot(grid), words[len], used, row, col, across, startAt, k)
  {
    ghost var b := Snapshot(grid);
    if len >= |words| {
      return None;
    }
    forall k: nat {
      ChooseFromFirstFit(b, words[len], used, row, col, across, startAt, k);
    }
    var k := startAt;
    while k < |words[len]|
      invariant startAt <= k
      invariant ChooseFrom(b, words[len], used, row, col, across, startAt)
             == ChooseFrom(b, words[len], used, row, col, across, k)
    {
      if words[len][k] in used {
        k := k + 1;
        continue;
      }
      var v := Fits(words[len][k], row, col, across, grid);
      if v == OutOfBounds {
        return None;
      }
      if v == Misfit {
        k := k + 1;
        continue;
      }
      return Some(k);
    }
    return None;
  }

  /** `fill`: writes the word into the grid along its run, in place. */
  method Fill(word: string, row: int, col: int, across: int, grid: array2<char>)
    requires grid.Length0 == DIM && grid.Length1 == DIM && RunInBoard(word, row, col, across)
    modifies grid
    ensures Snapshot(grid) == FillBoard(old(Snapshot(grid)), word, row, col, across)
  {
    ghost var before := Snapshot(grid);
    for k := 0 to |word|
      invariant forall q, c :: 0 <= q < DIM && 0 <= c < DIM ==>
        grid[q, c] == (if 0 <= RunIndex(row, col, across, (q, c)) < k
                       then word[RunIndex(row, col, across, (q, c))] else before[q][c])
    {
      var p := Pos(row, col, across, k);
      assert InBoard(p);
      if across > 0 {
        grid[row, col + k] := word[k];
      } else {
        grid[row + k, col] := word[k];
      }
    }
    FillBoardCells(before, word, row, col, across);
    BoardExt(Snapshot(grid), FillBoard(before, word, row, col, across));
  }
}
