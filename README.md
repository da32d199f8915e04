# Sudoku grid state, modelled in Dafny

This project models the grid-state logic of the `Sudoku` window in
`Sudoku.py`, a tkinter program. Drawing calls are treated as no-ops. The
model has four parts, one module each, plus a module of shared outcome types:

- **Notes** (`notes.dfy`) holds the pure part of `Tile.display_notes`. A
  tile's nine note flags decode to a committed value: digit k + 1 when flag k
  is the only flag set, and -1 otherwise. The same flags are laid out as the
  label text. No flag gives three lines of nine spaces. One flag gives the
  digit alone. Two or more flags give a 3x3 layout: slot (i, j) shows digit
  3i + j + 1 or a space, slots are three spaces apart, and lines are joined
  by newlines. `Toggle` is the flip `number_pressed` applies to one flag.
- **Tiles** (`tiles.dfy`) holds the class `Tile` with the fields `value`,
  `notes` and `text`. `text` is the label text. `DisplayNotes` runs the
  source's loops (count, last set flag, nested layout loops) and is proved
  to leave `value == Value(notes)` and `text == LabelText(notes)`.
- **Cursor** (`cursor.dfy`) holds the selection `current_cross_section`.
  `Move` is the arrow-key step exactly as written. Its guards are y != 0,
  x != 0, x != 8 and y != 9. So Down from y = 8 reaches y = 9, one past the
  board. A key whose guard fails leaves `x, y` unbound, and line 144 raises
  UnboundLocalError. `CellOf` is the pixel-to-square map
  `floor((p - 10) / 55)`. For a positive divisor, Python's floor of a true
  division equals Dafny's `/` on `int`. A click in the right or bottom
  padding maps to square 9, and `right_click` accepts 9.
- **Board** (`board.dfy`) holds the class `Sudoku`. Its fields are:
  - the 9x9 `tiles` and 9x9 `highlights` arrays;
  - the `cursor`;
  - two ghost fields: `vals`, the committed value of every tile, and
    `square`, which gives every tile object its own square.

  Every `highlight_*` operation, `reset_highlights`, `number_pressed`,
  `arrow_pressed` and `right_click` is a method that updates these fields in
  place. Python exceptions are results: `Outcome = Ok | Raised(Error)`.
  numpy raises IndexError for an index of 9, and `highlight_sub_grid`
  raises ValueError for a box index above 2. An IndexError part-way through
  `highlight_cross_section` keeps what was highlighted before it, and the
  contracts state that partial state. A selection with y = 9, which only the
  Down key reaches, makes `number_pressed` raise before it changes
  anything. It makes `arrow_pressed` raise after the selection has moved.
  A click that maps to index 9 raises inside `highlight_cross_section`
  before the selection is set, so a click never selects it.

## Model

| member | source | states |
|---|---|---|
| Notes.Count | Sudoku.py:36-39 | the number of set flags is at most the vector's length |
| Notes.LastSet | Sudoku.py:46-50 | the index the number loop ends on: a set flag with every later flag clear, or -1 exactly when no flag is set |
| Notes.Value | Sudoku.py:34-52 | the decoded value is k + 1 when flag k is the only set flag, and -1 otherwise |
| Notes.NoneSetIsCountZero | Sudoku.py:36-43 | the count is 0 exactly when no flag is set, the blank-text branch |
| Notes.ClearTailCount | Sudoku.py:36-39 | clear flags at the end add nothing to the count |
| Notes.SoleIsCountOne | Sudoku.py:36-52 | a sole set flag k gives count 1, and the number loop ends on k |
| Notes.CountOneIsSole | Sudoku.py:44-52 | in the count-1 branch, the flag the number loop finds is the only one set |
| Notes.DigitChar | Sudoku.py:53 | `str` of a single digit is one character between '0' and '9' |
| Notes.LineSpelledOut | Sudoku.py:57-66 | one pass of the inner loop writes slot, three spaces, slot, three spaces, slot |
| Notes.GridLines | Sudoku.py:55-68 | the layout is its three lines joined by two newlines |
| Notes.LineLayout | Sudoku.py:57-66 | every line has 9 characters, with slot 3i + c/4 at columns 0, 4 and 8 and spaces elsewhere |
| Notes.GridLayout | Sudoku.py:55-69 | the layout has 29 characters; each position matches the geometric description (newline at column 9, slot at every fourth column, space elsewhere) |
| Notes.BlankIsEmptyGrid | Sudoku.py:41-43 | the hard-coded blank text is the 3x3 layout of an all-clear vector |
| Notes.TextShowsNotes | Sudoku.py:41-69 | in all three branches, the label text contains digit d exactly when flag d - 1 is set |
| Notes.LineShowsNotes | Sudoku.py:58-63 | line i contains digit d exactly when d - 1 is one of the line's slots and that flag is set |
| Notes.GridShowsNotes | Sudoku.py:55-69 | the 3x3 layout contains digit d exactly when flag d - 1 is set |
| Notes.Toggle | Sudoku.py:118 | flipping flag k changes that flag and no other |
| Notes.ToggleTwice | Sudoku.py:118 | flipping the same flag twice restores the vector |
| Notes.ToggleCommits | Sudoku.py:118-119 | on a tile with no flag set, pressing k + 1 commits value k + 1 |
| Notes.ToggleClears | Sudoku.py:118-119 | flipping the only set flag clears the tile back to value -1 |
| Notes.PresetValues | Sudoku.py:173-178 | the preset vectors decode as: all clear to -1, all set to -1, note 5 alone to 5, notes 1, 3, 4, 5 and 9 to -1 |
| Tiles.Tile.constructor | Sudoku.py:14-22 | a new tile has all flags clear, value -1 and the blank text |
| Tiles.Tile.DisplayNotes | Sudoku.py:31-69 | the flags are kept; afterwards the value is the decoded value and the text is the label text of the flags |
| Tiles.CountFlags | Sudoku.py:36-39 | the count loop computes the number of set flags |
| Tiles.LastFlag | Sudoku.py:46-50 | the number loop gives -1 when no flag is set; otherwise it gives d with flag d - 1 set and every later flag clear |
| Tiles.Layout | Sudoku.py:55-68 | the nested loops build exactly the 3x3 layout |
| Cursor.MoveStaysInReach | Sudoku.py:124-144 | from a reachable selection, an arrow step stays reachable (x in 0..8, y in 0..9) and moves one square in the key's direction |
| Cursor.BlockedAtEdge | Sudoku.py:128-142 | a step leaves x, y unbound exactly when the key's guard fails: Up at y = 0, Left at x = 0, Right at x = 8, Down at y = 9 |
| Cursor.DownLeavesBoard | Sudoku.py:140-142 | Down from y = 8 selects y = 9, off the board |
| Cursor.OppositeStepsCancel | Sudoku.py:128-142 | where a step is allowed, the opposite key undoes it |
| Cursor.CellOf | Sudoku.py:106-107 | the computed square k is the 55-pixel band [10 + 55k, 10 + 55(k + 1)) that holds the pixel |
| Cursor.CellOfUnique | Sudoku.py:106-107 | that band is unique |
| Cursor.PaddingMapsToNine | Sudoku.py:83-109 | a click in the last 10 pixels of the 515-pixel canvas maps to square 9, which the guard accepts |
| Board.RowHitBeforeMeans | Sudoku.py:245-253 | the recursive row test in the loop invariants is the search over columns 0..n-1 for a matching square |
| Board.ColHitBeforeMeans | Sudoku.py:245-253 | the recursive column test is the search over rows 0..n-1 for a matching square |
| Board.PresetGrid | Sudoku.py:173-178 | the values after the presets form a 9x9 matrix |
| Board.Sudoku.HighlightSquare | Sudoku.py:216-217 | square (x, y) becomes `override`, or flips when there is none; no other square changes; an index of 9 or more raises IndexError with nothing changed |
| Board.Sudoku.HighlightRow | Sudoku.py:224-227 | every square of the row is turned on and squares already on stay on; row 9 raises IndexError with nothing changed |
| Board.Sudoku.HighlightColumn | Sudoku.py:229-232 | every square of the column is turned on and squares already on stay on; column 9 raises IndexError with nothing changed |
| Board.Sudoku.HighlightCrossSectionsOfSameNumber | Sudoku.py:243-253 | when (row, col) holds a value, the rows and columns of the matching squares in other rows and columns are turned on; nothing else changes |
| Board.Sudoku.HighlightCrossSection | Sudoku.py:234-241 | the row, the column and the same-number cross-sections are turned on; an out-of-range row or column raises IndexError after the parts that ran |
| Board.Sudoku.HighlightSubGrid | Sudoku.py:256-263 | box (row, col) is turned on, exactly the squares with i / 3 == row and j / 3 == col; a box index above 2 raises ValueError with nothing changed |
| Board.Sudoku.ResetHighlights | Sudoku.py:266-270 | every square ends off |
| Board.Sudoku.CreateTiles | Sudoku.py:168-171 | 81 distinct new tiles, one per square, each with no flag set |
| Board.Sudoku.CreateGameBoard | Sudoku.py:166-178 | the new tiles are consistent, each sits in its own square, and the three presets are applied |
| Board.Sudoku.PresetAll | Sudoku.py:173-178 | tiles (2, 2), (5, 6) and (8, 3) get their preset flags and decode to -1, 5 and -1; every other tile stays clear |
| Board.Sudoku.Preset | Sudoku.py:173-178 | one preset tile gets its flags and is decoded again; it is a different object from every other tile |
| Board.Sudoku.NoHighlights | Sudoku.py:179 | the highlight matrix starts all off |
| Board.Sudoku.constructor | Sudoku.py:71-98 | the board invariant holds, no square is highlighted, there is no selection, and the preset notes are in place |
| Board.Sudoku.ToggleNote | Sudoku.py:117-119 | exactly flag k of tile (x, y) flips and the tile is decoded again; other tiles and the highlights are unchanged |
| Board.Sudoku.NumberPressed | Sudoku.py:114-122 | with no selection, nothing changes. A selection with y = 9 raises IndexError with nothing changed. Otherwise exactly note key - 1 of the selected tile flips, other tiles keep their notes, and the same-number cross-sections of the new value are added to the highlights |
| Board.Sudoku.PickStep | Sudoku.py:125-142 | the sequence of four guarded assignments, mirrored statement by statement, computes `Move` |
| Board.Sudoku.HighlightSelection | Sudoku.py:145-149 | after the reset, the highlights are exactly the cross-section of (x, y) |
| Board.Sudoku.ArrowPressed | Sudoku.py:124-149 | a blocked step raises UnboundLocalError with nothing changed. Otherwise the selection becomes the step's square and the highlights become exactly its cross-section; a square with y = 9 raises IndexError part-way |
| Board.Sudoku.RightClick | Sudoku.py:101-112 | a click outside squares 0..9 changes nothing. Otherwise the highlights become exactly the clicked cross-section; the selection moves there unless an index of 9 raised IndexError first |

## Left out

- Drawing is not modelled: `Tile.draw`, the rectangles of `create_game_board`, `draw_outer_lines`, label placement in `create_tile`, fonts (`ceil(square_size / 2)`, the `square_size` argument of `display_notes`) and fill colours, including the colour argument of `highlight_square`. These are side effects on the canvas with no state the grid logic reads.
- The tkinter main loop and event binding are not modelled. An event becomes a parameter: the digit key for `number_pressed`, the arrow key for `arrow_pressed`, and the click position plus the clicked label's `winfo_x`/`winfo_y` (the `origin` parameter) for `right_click`.
- Pixel positions are `int`; the float label offsets of `create_tile` are not modelled.
- Negative indices are not modelled: indices are `nat`, so numpy's wrap-around for -1 does not arise, and no caller passes a negative index.
- Python stores notes as `0`/`1` integers and highlights as a float `np.zeros` matrix. Both are modelled as booleans, which is how they are tested and flipped.
- The module-level call `sudoku.highlight_sub_grid(1, 0)` at Sudoku.py:278 and the commented-out test block after it are not modelled; they are script code, not part of the class.
- The solver and the generator are not part of this model; they are not in `Sudoku.py`.
- Board.Sudoku.CreateTiles: the placeholder text `create_tile` gives a label is not modelled, because `Tile.__init__` replaces it at once by calling `display_notes`.
