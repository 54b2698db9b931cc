/**
 * The search loop of `main`: its state is the grid (changed in place), the
 * history `hist` (an insertion-ordered map from slot key to word index), the
 * set `used` of words in the grid and the cursor `alreadyCheckedTo`. One
 * iteration locates the best open slot, chooses a word for it and either
 * commits the word or, when none fits, wipes the grid, replays all history
 * entries but the last and retracts the last one.
 */
module Search {
  import opened Wrappers
  import opened Boards
  import opened SlotKeys
  import opened Fitting
  import opened Slots

  /** A word written along a run. */
  datatype Placement = Placement(word: string, row: int, col: int, across: int)

  /** What one iteration of the search loop did. `Done` is the loop's exit
      (no open slot left to try). */
  datatype Outcome = Done | Committed(slot: Slot, choice: nat) | Backtracked(slot: Slot)

  /** A history entry names an interior slot whose word, taken from the bin
      for the slot's length, agrees with the blocked cells of the grid. */
  ghost predicate EntryOk(pattern: Board, words: seq<seq<string>>, e: Entry)
    requires Shaped(pattern) && Bordered(pattern)
  {
    0 <= e.key && KeyAcross(e.key) <= 1 && IsInterior(KeyRow(e.key), KeyCol(e.key))
    && var len := RunLength(pattern, KeyRow(e.key), KeyCol(e.key), KeyAcross(e.key));
       len < |words| && 0 <= e.choice < |words[len]|
       && Matches(pattern, words[len][e.choice], KeyRow(e.key), KeyCol(e.key), KeyAcross(e.key))
  }

  /** `words[l][hist.get(slot)]`, with l the length of the entry's slot. */
  ghost function WordOf(pattern: Board, words: seq<seq<string>>, e: Entry): string
    requires Shaped(pattern) && Bordered(pattern) && EntryOk(pattern, words, e)
  {
    words[RunLength(pattern, KeyRow(e.key), KeyCol(e.key), KeyAcross(e.key))][e.choice]
  }

  ghost function PlacementOf(pattern: Board, words: seq<seq<string>>, e: Entry): (p: Placement)
    requires Shaped(pattern) && Bordered(pattern) && EntryOk(pattern, words, e)
    ensures Matches(pattern, p.word, p.row, p.col, p.across)
  {
    Placement(WordOf(pattern, words, e), KeyRow(e.key), KeyCol(e.key), KeyAcross(e.key))
  }

  ghost predicate AllOk(pattern: Board, words: seq<seq<string>>, hist: seq<Entry>)
    requires Shaped(pattern) && Bordered(pattern)
  {
    forall t :: 0 <= t < |hist| ==> EntryOk(pattern, words, hist[t])
  }

  /** The placements of a history, in insertion order. */
  ghost function Placements(pattern: Board, words: seq<seq<string>>, hist: seq<Entry>): (ps: seq<Placement>)
    requires Shaped(pattern) && Bordered(pattern) && AllOk(pattern, words, hist)
    ensures |ps| == |hist|
    ensures forall t :: 0 <= t < |ps| ==> ps[t] == PlacementOf(pattern, words, hist[t])
    ensures AllInBoard(ps)
  {
    seq(|hist|, t requires 0 <= t < |hist| => PlacementOf(pattern, words, hist[t]))
  }

  /** The words of a history. */
  ghost function WordSet(pattern: Board, words: seq<seq<string>>, hist: seq<Entry>): set<string>
    requires Shaped(pattern) && Bordered(pattern) && AllOk(pattern, words, hist)
  {
    set t | 0 <= t < |hist| :: WordOf(pattern, words, hist[t])
  }

  /** The placements of a prefix of the history are the prefix of its placements. */
  lemma PlacementsPrefix(pattern: Board, words: seq<seq<string>>, hist: seq<Entry>, n: nat)
    requires Shaped(pattern) && Bordered(pattern) && AllOk(pattern, words, hist) && n <= |hist|
    ensures AllOk(pattern, words, hist[..n])
    ensures Placements(pattern, words, hist[..n]) == Placements(pattern, words, hist)[..n]
  {
    assert forall t :: 0 <= t < n ==> hist[..n][t] == hist[t];
  }

  /** Every placement lies inside the grid. */
  ghost predicate AllInBoard(ps: seq<Placement>)
  {
    forall t :: 0 <= t < |ps| ==> RunInBoard(ps[t].word, ps[t].row, ps[t].col, ps[t].across)
  }

  /** The board after writing the placements in order, later ones over earlier ones. */
  ghost function Replay(b: Board, ps: seq<Placement>): (r: Board)
    requires Shaped(b) && AllInBoard(ps)
    ensures Shaped(r)
    decreases |ps|
  {
    if ps == [] then b
    else
      var p := ps[|ps| - 1];
      FillBoard(Replay(b, ps[..|ps| - 1]), p.word, p.row, p.col, p.across)
  }

  /** Replaying placements that agree with the blocked cells keeps them. */
  lemma {:induction false} ReplayKeepsPattern(b: Board, ps: seq<Placement>)
    requires Shaped(b) && AllInBoard(ps)
    requires forall t :: 0 <= t < |ps| ==> Matches(b, ps[t].word, ps[t].row, ps[t].col, ps[t].across)
    ensures SamePattern(Replay(b, ps), b)
    decreases |ps|
  {
    if ps != [] {
      var front, p := ps[..|ps| - 1], ps[|ps| - 1];
      ReplayKeepsPattern(b, front);
      var r := Replay(b, front);
      MatchesSamePattern(b, r, p.word, p.row, p.col, p.across);
      FillKeepsPattern(r, p.word, p.row, p.col, p.across);
    }
  }

  /** g holds nothing but the history's words: it is the layout with every
      letter cleared and the history's placements written over it in order. */
  ghost predicate ReplaysTo(g: Board, pattern: Board, words: seq<seq<string>>, hist: seq<Entry>)
    requires Shaped(pattern) && Bordered(pattern) && AllOk(pattern, words, hist)
  {
    g == Replay(Wipe(pattern), Placements(pattern, words, hist))
  }

  /** The bookkeeping of the search: every entry is well formed, keys and
      words are distinct along the history, and `used` holds exactly its words. */
  ghost predicate HistOk(pattern: Board, words: seq<seq<string>>, hist: seq<Entry>, used: set<string>)
    requires Shaped(pattern) && Bordered(pattern)
  {
    AllOk(pattern, words, hist)
    && (forall s, t :: 0 <= s < t < |hist| ==> hist[s].key != hist[t].key)
    && (forall s, t :: 0 <= s < t < |hist| ==> WordOf(pattern, words, hist[s]) != WordOf(pattern, words, hist[t]))
    && used == WordSet(pattern, words, hist)
  }

  /** The invariant of the search state, over its values: the grid keeps
      the blocked cells it was loaded with, and the bookkeeping holds. */
  ghost predicate Consistent(g: Board, pattern: Board, words: seq<seq<string>>, hist: seq<Entry>, used: set<string>)
  {
    Shaped(g) && Shaped(pattern) && Bordered(pattern) && SamePattern(g, pattern) && Bordered(g)
    && HistOk(pattern, words, hist, used)
  }

  /** Committing a slot not yet in the history with an unused word keeps the bookkeeping. */
  lemma HistAppend(pattern: Board, words: seq<seq<string>>, hist: seq<Entry>, used: set<string>, e: Entry)
    requires Shaped(pattern) && Bordered(pattern) && HistOk(pattern, words, hist, used)
    requires EntryOk(pattern, words, e) && e.key !in Keys(hist) && WordOf(pattern, words, e) !in used
    ensures HistOk(pattern, words, hist + [e], used + {WordOf(pattern, words, e)})
  {
    var h := hist + [e];
    AllOkAppend(pattern, words, hist, e);
    forall s, t | 0 <= s < t < |h| ensures h[s].key != h[t].key {
      assert h[s] == hist[s];
      if t < |hist| { assert h[t] == hist[t]; }
    }
    DistinctWordsAppend(pattern, words, hist, used, e);
    WordSetAppend(pattern, words, hist, e);
  }

  lemma AllOkAppend(pattern: Board, words: seq<seq<string>>, hist: seq<Entry>, e: Entry)
    requires Shaped(pattern) && Bordered(pattern) && AllOk(pattern, words, hist) && EntryOk(pattern, words, e)
    ensures AllOk(pattern, words, hist + [e])
  {
    var h := hist + [e];
    forall t | 0 <= t < |h| ensures EntryOk(pattern, words, h[t]) {
      if t < |hist| { assert h[t] == hist[t]; }
    }
  }

  lemma DistinctWordsAppend(pattern: Board, words: seq<seq<string>>, hist: seq<Entry>, used: set<string>, e: Entry)
    requires Shaped(pattern) && Bordered(pattern) && HistOk(pattern, words, hist, used)
    requires EntryOk(pattern, words, e) && WordOf(pattern, words, e) !in used
    ensures AllOk(pattern, words, hist + [e])
    ensures forall s, t :: 0 <= s < t < |hist + [e]| ==>
      WordOf(pattern, words, (hist + [e])[s]) != WordOf(pattern, words, (hist + [e])[t])
  {
    var h := hist + [e];
    AllOkAppend(pattern, words, hist, e);
    forall s, t | 0 <= s < t < |h| ensures WordOf(pattern, words, h[s]) != WordOf(pattern, words, h[t]) {
      assert h[s] == hist[s];
      assert WordOf(pattern, words, hist[s]) in used;
      if t < |hist| { assert h[t] == hist[t]; }
    }
  }

  lemma WordSetAppend(pattern: Board, words: seq<seq<string>>, hist: seq<Entry>, e: Entry)
    requires Shaped(pattern) && Bordered(pattern) && AllOk(pattern, words, hist) && EntryOk(pattern, words, e)
    ensures AllOk(pattern, words, hist + [e])
    ensures WordSet(pattern, words, hist + [e]) == WordSet(pattern, words, hist) + {WordOf(pattern, words, e)}
  {
    var h := hist + [e];
    var w := WordOf(pattern, words, e);
    AllOkAppend(pattern, words, hist, e);
    forall x | x in WordSet(pattern, words, h) ensures x in WordSet(pattern, words, hist) + {w} {
      var t :| 0 <= t < |h| && x == WordOf(pattern, words, h[t]);
      if t < |hist| { assert h[t] == hist[t]; }
    }
    forall x | x in WordSet(pattern, words, hist) + {w} ensures x in WordSet(pattern, words, h) {
      if x == w {
        assert h[|hist|] == e;
      } else {
        var t :| 0 <= t < |hist| && x == WordOf(pattern, words, hist[t]);
        assert h[t] == hist[t];
      }
    }
  }

  /** Retracting the last entry and freeing its word keeps the bookkeeping. */
  lemma HistDropLast(pattern: Board, words: seq<seq<string>>, hist: seq<Entry>, used: set<string>)
    requires Shaped(pattern) && Bordered(pattern) && HistOk(pattern, words, hist, used) && hist != []
    ensures HistOk(pattern, words, hist[..|hist| - 1], used - {WordOf(pattern, words, hist[|hist| - 1])})
  {
    var h := hist[..|hist| - 1];
    assert forall t :: 0 <= t < |h| ==> h[t] == hist[t];
  }

  /** The outcome of the replay loop keeps the invariant of the search state. */
  lemma RetractKeeps(pattern: Board, words: seq<seq<string>>,
                     b: Board, hist: seq<Entry>, used: set<string>, cursor: nat,
                     g: Board, hist': seq<Entry>, used': set<string>, cursor': nat)
    requires Shaped(b) && Shaped(g) && Shaped(pattern) && Bordered(pattern) && SamePattern(g, pattern)
    requires HistOk(pattern, words, hist, used)
    requires hist == [] ==> hist' == [] && used' == used && cursor' == cursor
    requires hist != [] ==>
      hist' == hist[..|hist| - 1]
      && used' == used - {WordOf(pattern, words, hist[|hist| - 1])}
      && cursor' == hist[|hist| - 1].choice + 1
    requires SamePattern(b, pattern)
    requires g == Replay(Wipe(b), Placements(pattern, words, hist)[..|hist'|])
    ensures Consistent(g, pattern, words, hist', used')
    ensures Retracts(pattern, words, b, hist, used, cursor, g, hist', used', cursor')
    ensures ReplaysTo(g, pattern, words, hist')
  {
    SamePatternBordered(g, pattern);
    WipeSamePattern(b, pattern);
    if hist != [] {
      HistDropLast(pattern, words, hist, used);
      PlacementsPrefix(pattern, words, hist, |hist| - 1);
    } else {
      assert Placements(pattern, words, hist)[..0] == Placements(pattern, words, hist');
    }
  }

  /** On a grid that holds only the history's words, a backtrack with an
      empty history changes nothing: the next iteration meets the same grid,
      history, used set and cursor, so it fails the same way again. */
  lemma RetractEmptyIdle(pattern: Board, words: seq<seq<string>>,
                         b: Board, used: set<string>, cursor: nat,
                         b': Board, hist': seq<Entry>, used': set<string>, cursor': nat)
    requires Consistent(b, pattern, words, [], used) && ReplaysTo(b, pattern, words, [])
    requires Retracts(pattern, words, b, [], used, cursor, b', hist', used', cursor')
    ensures b' == b && hist' == [] && used' == used && cursor' == cursor
  {
    WipeSamePattern(b, pattern);
  }

  /** Writing a word that agrees with the blocked cells keeps the grid's
      layout: the same blocked cells, the border intact. */
  lemma FillKeepsLayout(g: Board, pattern: Board, w: string, row: int, col: int, across: int)
    requires Shaped(pattern) && Bordered(pattern) && SamePattern(g, pattern)
    requires Matches(pattern, w, row, col, across)
    ensures RunInBoard(w, row, col, across)
    ensures SamePattern(FillBoard(g, w, row, col, across), pattern)
    ensures Bordered(FillBoard(g, w, row, col, across))
  {
    MatchesSamePattern(pattern, g, w, row, col, across);
    FillKeepsPattern(g, w, row, col, across);
    SamePatternBordered(FillBoard(g, w, row, col, across), pattern);
  }

  /** Replaying one more placement writes it over the replay so far. */
  lemma ReplayStep(b: Board, ps: seq<Placement>, t: nat)
    requires Shaped(b) && AllInBoard(ps) && t < |ps|
    ensures AllInBoard(ps[..t]) && AllInBoard(ps[..t + 1])
    ensures Replay(b, ps[..t + 1]) == FillBoard(Replay(b, ps[..t]), ps[t].word, ps[t].row, ps[t].col, ps[t].across)
  {
    assert ps[..t + 1][..t] == ps[..t];
  }

  /** The entry a commit records is well formed and new. */
  lemma CommitEntry(b: Board, pattern: Board, words: seq<seq<string>>, hist: seq<Entry>, s: Slot, choice: nat)
    requires Shaped(pattern) && Bordered(pattern) && SamePattern(b, pattern) && Bordered(b)
    requires IsCandidate(b, hist, s.row, s.col, s.across)
    requires s.length == RunLength(b, s.row, s.col, s.across)
    requires s.length < |words| && choice < |words[s.length]|
    requires FitVerdict(b, words[s.length][choice], s.row, s.col, s.across) == Fit
    ensures Matches(pattern, words[s.length][choice], s.row, s.col, s.across)
    ensures var e := Entry(Key(s.across, s.row, s.col), choice);
      EntryOk(pattern, words, e) && WordOf(pattern, words, e) == words[s.length][choice] && e.key !in Keys(hist)
  {
    var word := words[s.length][choice];
    assert Pos(s.row, s.col, s.across, 1) == (s.row + 1, s.col) || s.across > 0;
    FitMatches(b, word, s.row, s.col, s.across);
    MatchesSamePattern(b, pattern, word, s.row, s.col, s.across);
    RunLengthSamePattern(b, pattern, s.row, s.col, s.across);
  }

  /** A commit keeps the invariant of the search state. */
  lemma CommitKeeps(b: Board, pattern: Board, words: seq<seq<string>>, hist: seq<Entry>, used: set<string>,
                    s: Slot, choice: nat)
    requires Consistent(b, pattern, words, hist, used)
    requires IsCandidate(b, hist, s.row, s.col, s.across)
    requires s.length == RunLength(b, s.row, s.col, s.across)
    requires s.length < |words| && choice < |words[s.length]|
    requires words[s.length][choice] !in used
    requires FitVerdict(b, words[s.length][choice], s.row, s.col, s.across) == Fit
    ensures RunInBoard(words[s.length][choice], s.row, s.col, s.across)
    ensures Consistent(FillBoard(b, words[s.length][choice], s.row, s.col, s.across), pattern, words,
                       hist + [Entry(Key(s.across, s.row, s.col), choice)], used + {words[s.length][choice]})
  {
    var word := words[s.length][choice];
    CommitEntry(b, pattern, words, hist, s, choice);
    FillKeepsLayout(b, pattern, word, s.row, s.col, s.across);
    HistAppend(pattern, words, hist, used, Entry(Key(s.across, s.row, s.col), choice));
  }

  /** A commit onto a grid that holds only the history's words gives a grid
      that holds only the new history's words. */
  lemma CommitReplays(b: Board, pattern: Board, words: seq<seq<string>>, hist: seq<Entry>, used: set<string>,
                      s: Slot, choice: nat)
    requires Consistent(b, pattern, words, hist, used)
    requires IsCandidate(b, hist, s.row, s.col, s.across)
    requires s.length == RunLength(b, s.row, s.col, s.across)
    requires s.length < |words| && choice < |words[s.length]|
    requires FitVerdict(b, words[s.length][choice], s.row, s.col, s.across) == Fit
    requires ReplaysTo(b, pattern, words, hist)
    ensures RunInBoard(words[s.length][choice], s.row, s.col, s.across)
    ensures AllOk(pattern, words, hist + [Entry(Key(s.across, s.row, s.col), choice)])
    ensures ReplaysTo(FillBoard(b, words[s.length][choice], s.row, s.col, s.across), pattern, words,
                      hist + [Entry(Key(s.across, s.row, s.col), choice)])
  {
    var e := Entry(Key(s.across, s.row, s.col), choice);
    CommitEntry(b, pattern, words, hist, s, choice);
    ReplayAppend(Wipe(pattern), pattern, words, hist, e);
  }

  /** Replaying a history with one more entry writes that entry's word over
      the replay of the history. */
  lemma ReplayAppend(b: Board, pattern: Board, words: seq<seq<string>>, hist: seq<Entry>, e: Entry)
    requires Shaped(b) && Shaped(pattern) && Bordered(pattern)
    requires AllOk(pattern, words, hist) && EntryOk(pattern, words, e)
    ensures AllOk(pattern, words, hist + [e])
    ensures var p := PlacementOf(pattern, words, e);
      RunInBoard(p.word, p.row, p.col, p.across)
      && Replay(b, Placements(pattern, words, hist + [e]))
         == FillBoard(Replay(b, Placements(pattern, words, hist)), p.word, p.row, p.col, p.across)
  {
    AllOkAppend(pattern, words, hist, e);
    var ps := Placements(pattern, words, hist + [e]);
    assert ps[|hist|] == PlacementOf(pattern, words, e);
    assert ps[..|hist|] == Placements(pattern, words, hist);
  }

  /** The first part of the catch block: every open cell becomes blank. */
  method Clear(grid: array2<char>)
    requires grid.Length0 == DIM && grid.Length1 == DIM
    modifies grid
    ensures Snapshot(grid) == Wipe(old(Snapshot(grid)))
  {
    ghost var before := Snapshot(grid);
    for i := 0 to grid.Length0
      invariant forall p, q :: 0 <= p < DIM && 0 <= q < DIM ==>
        grid[p, q] == (if p < i then (if before[p][q] == BLOCK then BLOCK else BLANK) else before[p][q])
    {
      for j := 0 to grid.Length1
        invariant forall p, q :: 0 <= p < DIM && 0 <= q < DIM ==>
          grid[p, q] == (if p < i || (p == i && q < j) then (if before[p][q] == BLOCK then BLOCK else BLANK)
                         else before[p][q])
      {
        grid[i, j] := if grid[i, j] == BLOCK then BLOCK else BLANK;
      }
    }
    BoardExt(Snapshot(grid), Wipe(before));
  }

  /** The length of an entry's slot, measured in the current grid as the
      replay loop does; it is the one the entry was made with. */
  method EntryLength(grid: array2<char>, ghost pattern: Board, words: seq<seq<string>>, e: Entry)
    returns (l: nat)
    requires grid.Length0 == DIM && grid.Length1 == DIM && Shaped(pattern) && Bordered(pattern)
    requires SamePattern(Snapshot(grid), pattern) && Bordered(Snapshot(grid)) && EntryOk(pattern, words, e)
    ensures l == RunLength(pattern, KeyRow(e.key), KeyCol(e.key), KeyAcross(e.key))
    ensures l < |words| && e.choice < |words[l]| && words[l][e.choice] == WordOf(pattern, words, e)
  {
    var slot := e.key;
    var across, i, j := KeyAcross(slot), KeyRow(slot), KeyCol(slot);
    ghost var b := Snapshot(grid);
    ghost var len := RunLength(b, i, j, across);
    RunLengthSamePattern(b, pattern, i, j, across);
    l := 0;
    while (if across > 0 then grid[i, j + l] else grid[i + l, j]) != BLOCK
      invariant l <= len && InBoard(Pos(i, j, across, l))
      decreases len - l
    {
      l := l + 1;
    }
  }

  /** Writes an entry's word back into its slot, `l` being the slot's length. */
  method Refill(grid: array2<char>, ghost pattern: Board, words: seq<seq<string>>, e: Entry, l: nat)
    requires grid.Length0 == DIM && grid.Length1 == DIM && Shaped(pattern) && Bordered(pattern)
    requires SamePattern(Snapshot(grid), pattern) && Bordered(Snapshot(grid)) && EntryOk(pattern, words, e)
    requires l == RunLength(pattern, KeyRow(e.key), KeyCol(e.key), KeyAcross(e.key))
    modifies grid
    ensures SamePattern(Snapshot(grid), pattern) && Bordered(Snapshot(grid))
    ensures var p := PlacementOf(pattern, words, e);
      RunInBoard(p.word, p.row, p.col, p.across)
      && Snapshot(grid) == FillBoard(old(Snapshot(grid)), p.word, p.row, p.col, p.across)
  {
    var i, j, across := KeyRow(e.key), KeyCol(e.key), KeyAcross(e.key);
    FillKeepsLayout(Snapshot(grid), pattern, words[l][e.choice], i, j, across);
    Fill(words[l][e.choice], i, j, across, grid);
  }

  /** The replay loop of the catch block, over a copy of the history: every
      entry but the last is written back into the grid in insertion order,
      re-measuring its slot's length in the grid; at the last entry the
      cursor moves past its word index, its word is freed and the entry is
      removed. Returns the new history, used set and cursor. */
  method Rewind(grid: array2<char>, ghost pattern: Board, words: seq<seq<string>>,
                hist: seq<Entry>, used: set<string>, cursor: nat)
    returns (hist': seq<Entry>, used': set<string>, cursor': nat)
    requires grid.Length0 == DIM && grid.Length1 == DIM && Shaped(pattern) && Bordered(pattern)
    requires SamePattern(Snapshot(grid), pattern) && Bordered(Snapshot(grid)) && AllOk(pattern, words, hist)
    modifies grid
    ensures SamePattern(Snapshot(grid), pattern) && Bordered(Snapshot(grid))
    ensures hist == [] ==> hist' == [] && used' == used && cursor' == cursor
    ensures hist != [] ==>
      hist' == hist[..|hist| - 1]
      && used' == used - {WordOf(pattern, words, hist[|hist| - 1])}
      && cursor' == hist[|hist| - 1].choice + 1
    ensures Snapshot(grid) == Replay(old(Snapshot(grid)), Placements(pattern, words, hist)[..|hist'|])
  {
    ghost var start := Snapshot(grid);
    ghost var ps := Placements(pattern, words, hist);
    hist', used', cursor' := hist, used, cursor;
    var afterThis := |hist|;
    for t := 0 to |hist|
      invariant afterThis == |hist| - t
      invariant t < |hist| || hist == [] ==> hist' == hist && used' == used && cursor' == cursor
      invariant t == |hist| && hist != [] ==>
        hist' == hist[..|hist| - 1]
        && used' == used - {WordOf(pattern, words, hist[|hist| - 1])}
        && cursor' == hist[|hist| - 1].choice + 1
      invariant SamePattern(Snapshot(grid), pattern) && Bordered(Snapshot(grid))
      invariant Snapshot(grid) == Replay(start, ps[..if t == |hist| && t > 0 then t - 1 else t])
    {
      afterThis := afterThis - 1;
      var e := hist[t];
      assert EntryOk(pattern, words, e);
      var l := EntryLength(grid, pattern, words, e);
      if afterThis > 0 {
        ReplayStep(start, ps, t);
        Refill(grid, pattern, words, e, l);
      } else {
        cursor' := e.choice + 1;
        used' := used' - {words[l][e.choice]};
        hist' := hist'[..|hist'| - 1];  // hist.remove(slot): slot is the last key
      }
    }
  }

  /** The state change of the commit step: the word goes into the slot,
      the slot's key and the word's index are appended to the history, the
      word joins `used` and the cursor goes back to 0. */
  ghost predicate Commits(words: seq<seq<string>>, s: Slot, choice: nat,
                          b: Board, hist: seq<Entry>, used: set<string>,
                          b': Board, hist': seq<Entry>, used': set<string>, cursor': nat)
    requires Shaped(b)
  {
    0 <= s.across <= 1 && 0 <= s.row < 256 && 0 <= s.col < 256
    && 0 <= s.length < |words| && choice < |words[s.length]|
    && RunInBoard(words[s.length][choice], s.row, s.col, s.across)
    && b' == FillBoard(b, words[s.length][choice], s.row, s.col, s.across)
    && hist' == hist + [Entry(Key(s.across, s.row, s.col), choice)]
    && used' == used + {words[s.length][choice]}
    && cursor' == 0
  }

  /** The state change of the backtrack step: the last entry is dropped
      (nothing is dropped from an empty history), its word leaves `used`,
      the cursor moves past its word index, and the grid is the wiped grid
      with the remaining placements written back in order. */
  ghost predicate Retracts(pattern: Board, words: seq<seq<string>>,
                           b: Board, hist: seq<Entry>, used: set<string>, cursor: nat,
                           b': Board, hist': seq<Entry>, used': set<string>, cursor': nat)
    requires Shaped(b) && Shaped(pattern) && Bordered(pattern) && AllOk(pattern, words, hist)
  {
    (hist == [] ==> hist' == [] && used' == used && cursor' == cursor)
    && (hist != [] ==>
          hist' == hist[..|hist| - 1]
          && used' == used - {WordOf(pattern, words, hist[|hist| - 1])}
          && cursor' == hist[|hist| - 1].choice + 1)
    && AllOk(pattern, words, hist')
    && b' == Replay(Wipe(b), Placements(pattern, words, hist'))
  }

  class Crossword {
    const grid: array2<char>
    const words: seq<seq<string>>
    /** The grid as loaded; only its blocked cells matter. */
    ghost const pattern: Board
    var hist: seq<Entry>
    var used: set<string>
    var alreadyCheckedTo: nat

    /** The grid keeps the blocked cells it was loaded with; every history
        entry names an interior slot and a word that agrees with those cells;
        keys and words in the history are distinct; `used` holds exactly the
        words of the history. */
    ghost predicate Valid()
      reads this, grid
    {
      grid.Length0 == DIM && grid.Length1 == DIM
      && Consistent(Snapshot(grid), pattern, words, hist, used)
    }

    /** The grid holds nothing but the history's words. */
    ghost predicate Replayed()
      reads this, grid
      requires Valid()
    {
      ReplaysTo(Snapshot(grid), pattern, words, hist)
    }

    /** The state `main` starts from: a bordered grid, the word bins, an
        empty history, nothing used, the cursor at 0. */
    constructor (grid: array2<char>, words: seq<seq<string>>)
      requires grid.Length0 == DIM && grid.Length1 == DIM && Bordered(Snapshot(grid))
      ensures Valid() && this.grid == grid && this.words == words && pattern == Snapshot(grid)
      ensures hist == [] && used == {} && alreadyCheckedTo == 0
      ensures Replayed() <==>
        forall q, c :: 0 <= q < DIM && 0 <= c < DIM ==> grid[q, c] == BLOCK || grid[q, c] == BLANK
    {
      this.grid := grid;
      this.words := words;
      pattern := Snapshot(grid);
      hist := [];
      used := {};
      alreadyCheckedTo := 0;
      new;
      WipeFixed(pattern);
    }

    /** Puts the chosen word into the chosen slot and records it. */
    method Commit(s: Slot, choice: nat)
      requires Valid()
      requires IsCandidate(Snapshot(grid), hist, s.row, s.col, s.across)
      requires s.length == RunLength(Snapshot(grid), s.row, s.col, s.across)
      requires s.length < |words| && choice < |words[s.length]|
      requires words[s.length][choice] !in used
      requires FitVerdict(Snapshot(grid), words[s.length][choice], s.row, s.col, s.across) == Fit
      modifies this, grid
      ensures Valid()
      ensures Commits(words, s, choice, old(Snapshot(grid)), old(hist), old(used),
                      Snapshot(grid), hist, used, alreadyCheckedTo)
    {
      var word := words[s.length][choice];
      var e := Entry(Key(s.across, s.row, s.col), choice);
      ghost var b := Snapshot(grid);
      CommitKeeps(b, pattern, words, hist, used, s, choice);
      Fill(word, s.row, s.col, s.across, grid);
      hist, used, alreadyCheckedTo := hist + [e], used + {word}, 0;
    }


    /** The catch block: wipe every open cell, replay every history entry
        but the last in insertion order, then drop the last entry, free its
        word and move the cursor past its index. */
    method Backtrack()
      requires Valid()
      modifies this, grid
      ensures Valid()
      ensures Retracts(pattern, words, old(Snapshot(grid)), old(hist), old(used), old(alreadyCheckedTo),
                       Snapshot(grid), hist, used, alreadyCheckedTo)
      ensures Replayed()
    {
      ghost var b, h, u, c := Snapshot(grid), hist, used, alreadyCheckedTo;
      Clear(grid);
      SamePatternBordered(Snapshot(grid), pattern);
      hist, used, alreadyCheckedTo := Rewind(grid, pattern, words, hist, used, alreadyCheckedTo);
      RetractKeeps(pattern, words, b, h, u, c, Snapshot(grid), hist, used, alreadyCheckedTo);
    }

    /** One iteration of the `while (true)` loop of `main`. */
    method Step() returns (o: Outcome)
      requires Valid()
      modifies this, grid
      ensures Valid()
      ensures o.Done? <==> NoCandidate(old(Snapshot(grid)), old(hist))
      ensures o.Done? ==>
        hist == old(hist) && used == old(used) && alreadyCheckedTo == old(alreadyCheckedTo)
        && Snapshot(grid) == old(Snapshot(grid))
      ensures !o.Done? ==> IsBest(old(Snapshot(grid)), old(hist), o.slot)
      ensures o.Committed? ==>
        Choose(old(Snapshot(grid)), words, o.slot.length, old(used), o.slot.row, o.slot.col, o.slot.across,
               old(alreadyCheckedTo)) == Some(o.choice)
        && Commits(words, o.slot, o.choice, old(Snapshot(grid)), old(hist), old(used),
                   Snapshot(grid), hist, used, alreadyCheckedTo)
      ensures o.Backtracked? ==>
        Choose(old(Snapshot(grid)), words, o.slot.length, old(used), o.slot.row, o.slot.col, o.slot.across,
               old(alreadyCheckedTo)) == None
        && Retracts(pattern, words, old(Snapshot(grid)), old(hist), old(used), old(alreadyCheckedTo),
                    Snapshot(grid), hist, used, alreadyCheckedTo)
      ensures o.Backtracked? ==> Replayed()
    {
      var s := LocateSlot(grid, hist);
      if s.length == 0 {
        return Done;
      }
      var choice := ChooseWord(s.length, s.row, s.col, s.across, grid, words, used, alreadyCheckedTo);
      match choice
      case None =>
        Backtrack();
        o := Backtracked(s);
      case Some(k) =>
        Commit(s, k);
        o := Committed(s, k);
    }
  }
}
