# olincrossword search core in Dafny

This project models the search loop of `olincrossword`. The program fills a
21x21 crossword layout with words, using a greedy search that backtracks when
it gets stuck. The grid is stored as a 23x23 array whose outer ring is blocked
(`'#'`). The words come in bins indexed by length. The search state is:

- `hist`: an insertion-ordered map from slot key to word index;
- `used`: the set of words already in the grid;
- `alreadyCheckedTo`: the cursor into the current bin.

Each iteration of `main`'s loop does one of three things:

1. **Select.** Scan the interior row by row. At each cell, look first at the
   down slot anchored there, then at the across slot. Skip slots whose key is
   already in `hist`. Keep the slot with the most non-blank cells (crossings),
   breaking ties by greater length. Both comparisons are strict, so among
   equal slots the first one seen wins. When no slot is left, the loop stops.
2. **Choose and commit.** `chooseWord` returns the first word of the slot's
   bin, from the cursor on, that is unused and passes `fits`. `fill` writes it
   into the grid. The key and index go to the end of `hist`, the word joins
   `used`, and the cursor goes back to 0.
3. **Backtrack.** If `chooseWord` throws, every open cell is reset to blank.
   Every history entry but the last is written back in insertion order, with
   its slot length measured again in the grid. The last entry is removed, its
   word is freed, and the cursor moves past its word index.

Modules:

- `SlotKeys`: the packed slot key (`across << 16 | row << 8 | col`) and its
  decoding.
- `Boards`: the grid as a value (`seq<seq<char>>`), with runs, crossings,
  `fill` as a function, and the wipe.
- `Fitting`: `fits`, `chooseWord` and `fill`. Each is a function that states
  what the code computes, plus a method over the `array2` grid proved equal
  to that function.
- `Slots`: the scan, as methods with loop invariants.
- `Search`: the search state as the class `Crossword`, whose `Commit`,
  `Backtrack` and `Step` change the grid and fields in place.

The class invariant `Valid` says:

- the grid keeps the blocked cells it was loaded with;
- every history entry decodes to an interior slot, and its word agrees with
  those blocked cells;
- keys and words are distinct along the history;
- `used` holds exactly the history's words.

`Replayed` says that the grid holds nothing but the history's words: it is the
layout with its letters cleared and the history's placements written over it,
in order.

- `Backtrack` always establishes `Replayed`.
- `CommitReplays` shows that a commit keeps it.
- The constructor shows that it holds initially exactly when the loaded grid
  has no letters.

So on such a grid, backtracking restores the grid to what it was just before
the retracted slot was committed.

Some behaviour of the program is worth stating outright:

- **Empty history.** A backtrack with an empty history only wipes the grid;
  `Search.Retracts` states that the history, `used` and the cursor stay as
  they were. When the grid already holds only the history's words (always
  the case after the first backtrack, and from the start on a grid loaded
  without letters), the wipe changes nothing either (`Search.RetractEmptyIdle`),
  so the next iteration picks the same slot with the same cursor, fails
  again, and the loop never ends. On a grid still holding loaded letters the
  wipe erases them, and the next scan may pick another slot.
- **Missing bin.** Nothing checks up front that every slot length has a bin
  of words. A slot length past the last bin makes `words[len]` throw inside
  `chooseWord`, and the catch block treats that as a failed choice and
  backtracks. `Fitting.Choose` returns `None` there.
- **Pre-filled letters.** The wipe resets every open cell, including letters
  that the initial grid file may contain, and nothing writes them back unless
  a history word covers them with the same letter. So a backtrack is
  guaranteed to return the grid to its state before the retracted word when
  the initial grid holds no letters, as `Search.Crossword.constructor` and
  `Replayed` state.
- **Down probe.** `fits` tests a down word's `'#'` against `grid[i+1][j]`,
  the cell below the anchor, rather than against the word's own cell. The
  model keeps this as written (`Fitting.Probe`), and
  `Fitting.DownRejectsMultiWord` states its effect: a word containing `'#'`
  never fits a down slot.

## Model

| member | source | states |
|---|---|---|
| SlotKeys.Key | src/olincrossword/Main.java:115 | decoding a packed key (`slot>>16`, `slot>>8&0xff`, `slot&0xff`) gives back the orientation, row and column it was packed from at lines 64/82; keys are non-negative and below 2^17 |
| SlotKeys.KeyInjective | src/olincrossword/Main.java:82 | two slots have the same key if and only if they have the same orientation, row and column, so the down and across slots of one cell never collide |
| SlotKeys.Keys | src/olincrossword/Main.java:64 | `hist.keySet()`: it holds every key of the history and nothing else |
| Boards.IsAnchor | src/olincrossword/Main.java:63 | the anchor test (line 63 down, line 81 across): the cell is open, the cell before it along the run is blocked, and the cell after it is open |
| Boards.RunLength | src/olincrossword/Main.java:65-70 | the slot's length is the offset of the first `'#'` from the anchor; every cell before it is open and inside the grid, so the counting loop stops inside the grid |
| Boards.NonBlank | src/olincrossword/Main.java:66-69 | the intersection count `n` over the first len cells of a run: the number of cells that are not blank, never more than len |
| Boards.Crossings | src/olincrossword/Main.java:65-70 | the intersection count of a slot: `n` taken over the slot's whole run, up to its first `'#'` |
| Boards.NonBlankCounts | src/olincrossword/Main.java:66-67 | the intersection count of a run is 0 if and only if every cell is blank, and equals the length if and only if no cell is blank |
| Boards.AnchorRun | src/olincrossword/Main.java:63 | a cell that passes the anchor test starts a slot of length at least 2 with no more crossings than cells |
| Boards.RunLengthSamePattern | src/olincrossword/Main.java:116-118 | a slot's length depends only on the blocked cells, so measuring it again during the replay gives the length it was filled with |
| Boards.FillFrom | src/olincrossword/Main.java:184-188 | the `fill` loop from offset k on, one cell write per step, as a function on grids |
| Boards.FillBoard | src/olincrossword/Main.java:183-189 | `fill` as a function: the grid after the whole word is written along its run |
| Boards.FillFromCells | src/olincrossword/Main.java:184-188 | writing from offset k on: the run's cells from k hold the word's characters, every other cell is unchanged |
| Boards.FillBoardCells | src/olincrossword/Main.java:183-189 | after `fill`, exactly the run's cells hold the word's characters, in order; every other cell is unchanged |
| Boards.FillKeepsPattern | src/olincrossword/Main.java:183-189 | filling a word that has `'#'` exactly where the grid does leaves the blocked cells as they were |
| Boards.Wipe | src/olincrossword/Main.java:109-111 | the reset grid has the same blocked cells, and every other cell is blank |
| Boards.WipeSamePattern | src/olincrossword/Main.java:109-111 | the reset grid depends only on where the blocked cells are |
| Boards.WipeFixed | src/olincrossword/Main.java:200-204 | a loaded grid is unchanged by the reset if and only if it holds no letters |
| Fitting.Probe | src/olincrossword/Main.java:173 | the cell whose `'#'` a word's `'#'` must meet: across, the word's own cell at that offset; down, the second cell of the run, whatever the offset |
| Fitting.FitFrom | src/olincrossword/Main.java:165-179 | the `fits` loop from offset k on, with its tests in the program's order and an out-of-range read as its own verdict; a fit means every cell from k on lies in the grid |
| Fitting.FitVerdict | src/olincrossword/Main.java:164-180 | a word that fits lies entirely inside the grid |
| Fitting.FitFromIff | src/olincrossword/Main.java:165-179 | `fits` accepts if and only if, at every offset, the word's cell is in the grid and is blank or already holds that character, and every `'#'` of the word meets a `'#'` at the probed cell |
| Fitting.FitFromInBoard | src/olincrossword/Main.java:164-180 | `fits` never reads outside the grid when the word's run (and, down, the cell below the anchor) lies inside it |
| Fitting.DownRejectsMultiWord | src/olincrossword/Main.java:173 | because the down test probes the cell below the anchor, which is open in a down slot, a word containing `'#'` never fits down |
| Fitting.FitMatches | src/olincrossword/Main.java:164-180 | a word that fits a slot has `'#'` exactly where the grid is blocked along its run |
| Fitting.FillThenFitsAcross | src/olincrossword/Main.java:166-171 | once an across word is filled in, it fits its own slot |
| Fitting.FillThenFitsDown | src/olincrossword/Main.java:172-177 | once a down word without `'#'` is filled in, it fits its own slot |
| Fitting.ChooseFrom | src/olincrossword/Main.java:151-159 | a returned index is at or after the start, within the bin, and names an unused word that fits |
| Fitting.Choose | src/olincrossword/Main.java:150-161 | a returned index lies in an existing bin at or after the cursor, and names an unused word that fits; a missing bin gives no choice |
| Fitting.ChooseFromFirstFit | src/olincrossword/Main.java:151-158 | `chooseWord` returns k if and only if k is the first index from the cursor whose word is unused and fits, and no unused word before it made `fits` read outside the grid |
| Fitting.ChooseFromNone | src/olincrossword/Main.java:151-160 | when no unused word reads outside the grid, `chooseWord` fails if and only if every word from the cursor on is used or does not fit |
| Fitting.Fits | src/olincrossword/Main.java:164-180 | the loop returns the verdict of the `fits` specification; it accepts if and only if every offset is acceptable |
| Fitting.ChooseWord | src/olincrossword/Main.java:150-161 | the loop returns the specified choice, which is Some(k) if and only if k is the first fit from the cursor |
| Fitting.Fill | src/olincrossword/Main.java:183-189 | the grid array afterwards is the grid with the word written along the run |
| Slots.BestUnique | src/olincrossword/Main.java:71-77 | strict comparisons in scan order single out one best slot |
| Slots.ScanStep | src/olincrossword/Main.java:71-77 | replacing the running best exactly when a new candidate strictly outranks it keeps it the best of all positions visited so far |
| Slots.RowEnd | src/olincrossword/Main.java:60-61 | no slot is anchored between the end of one row and the start of the next |
| Slots.MeasureRun | src/olincrossword/Main.java:65-70 | the inner loop returns the slot's length and its crossings |
| Slots.Consider | src/olincrossword/Main.java:63-79 | one anchor test keeps the running best correct after one more position |
| Slots.LocateSlot | src/olincrossword/Main.java:58-102 | the scan finds no slot (`maxL == 0`) if and only if every slot is in the history; otherwise it returns the slot with the most crossings, then the greatest length, first in scan order, which has length at least 2 |
| Search.PlacementsPrefix | src/olincrossword/Main.java:112-121 | the entries replayed before the last one are the prefix of the history in insertion order |
| Search.Replay | src/olincrossword/Main.java:113-121 | the refill loop as a function: the grid after the placements are written in order, later ones over earlier ones |
| Search.ReplayKeepsPattern | src/olincrossword/Main.java:119-121 | writing back words that agree with the layout keeps the blocked cells |
| Search.HistAppend | src/olincrossword/Main.java:132-133 | adding a new slot with an unused word keeps the bookkeeping: entries well formed, keys and words distinct, `used` equal to the history's words |
| Search.DistinctWordsAppend | src/olincrossword/Main.java:152-153 | since `chooseWord` skips used words, the words along the history stay distinct |
| Search.WordSetAppend | src/olincrossword/Main.java:133 | the history's words grow by exactly the committed word |
| Search.HistDropLast | src/olincrossword/Main.java:124-125 | removing the last entry and its word from `used` keeps the bookkeeping |
| Search.RetractKeeps | src/olincrossword/Main.java:108-127 | a backtrack keeps the search invariant, and leaves a grid holding exactly the remaining history's words over the cleared layout |
| Search.RetractEmptyIdle | src/olincrossword/Main.java:108-127 | on a grid holding only the history's words, a backtrack with an empty history leaves the grid, the history, `used` and the cursor exactly as they were |
| Search.FillKeepsLayout | src/olincrossword/Main.java:120 | writing a history word back keeps the blocked cells and the border |
| Search.ReplayStep | src/olincrossword/Main.java:119-121 | writing back one more entry extends the replayed prefix by that entry |
| Search.CommitEntry | src/olincrossword/Main.java:129-132 | the recorded entry names a slot not yet in the history and a word that agrees with the layout |
| Search.CommitKeeps | src/olincrossword/Main.java:129-135 | a commit keeps the search invariant |
| Search.CommitReplays | src/olincrossword/Main.java:129-135 | a commit onto a grid holding only the history's words gives a grid holding only the new history's words |
| Search.ReplayAppend | src/olincrossword/Main.java:131-132 | replaying a history one entry longer writes that entry's word over the shorter replay |
| Search.Clear | src/olincrossword/Main.java:109-111 | the nested loop turns the grid array into its reset |
| Search.EntryLength | src/olincrossword/Main.java:115-118 | the length measured in the grid during the replay is the one the entry was filled with, so it indexes the entry's own word |
| Search.Refill | src/olincrossword/Main.java:119-121 | writing an entry back fills its own word into its own slot and keeps the layout |
| Search.Rewind | src/olincrossword/Main.java:112-127 | the replay loop writes back every entry but the last, in order, and at the last one drops it, frees its word and sets the cursor past its index; an empty history changes nothing |
| Search.Crossword.constructor | src/olincrossword/Main.java:49-55 | the start state (bordered grid, empty history, nothing used, cursor 0) satisfies the invariant, and holds only history words exactly when the grid has no letters |
| Search.Crossword.Commit | src/olincrossword/Main.java:129-135 | the word is filled in, the entry is appended, the word is marked used, the cursor is reset, and the invariant is kept |
| Search.Crossword.Backtrack | src/olincrossword/Main.java:108-127 | the last entry is retracted, the grid is the cleared layout with the remaining history written back in order, and the invariant is kept |
| Search.Crossword.Step | src/olincrossword/Main.java:57-135 | one iteration stops exactly when no slot is left, and then changes nothing; otherwise it works on the best slot, committing the first fitting word when `chooseWord` finds one and backtracking when it does not |

## Left out

- `loadInitialState` reads a file. The model takes the loaded grid as a parameter and keeps only its guarantee that the border is blocked, as a precondition.
- `loadWords` reads files, shuffles the words, and bins them by the length of their first token. The model takes the bins as a parameter.
- `toString`, printing and the `display`/`FRAME_RATE` counter only present the grid, so they are left out.
- Termination of the whole loop is not modelled; one iteration is (`Search.Crossword.Step`). The program's loop need not terminate: once the grid holds only the history's words, a backtrack with an empty history leaves the whole state unchanged (`Search.RetractEmptyIdle`), so it repeats forever.
- Exceptions are not modelled as control flow. The out-of-range reads in `fits` become the `OutOfBounds` verdict, and the out-of-range bin in `chooseWord` becomes `None`. The throw at the end of `chooseWord` becomes `None` as well. The catch block is `Backtrack`.
- Java 32-bit arithmetic is not modelled. Keys and indices stay far below 2^31, so the shifts and masks of the key are written as arithmetic on non-negative integers.
- The history is a sequence of (key, index) entries in insertion order, standing in for the `LinkedHashMap`.
- Removing the last key while iterating over the key set ends the iteration. It is modelled as the loop's last step.
- Search.Crossword.Commit: does not itself state that `Replayed` is kept. That property is stated on values by `Search.CommitReplays`.
