/** The grid state of the `Sudoku` window: the 9x9 tiles, the 9x9 highlight
    matrix and the selection cursor, with the operations that change them.
    Drawing (rectangles, outer lines, fill colours) has no state of its own
    here and is left out. */
module Board {
  import opened Outcomes
  import opened Notes
  import opened Tiles
  import opened Cursor

  /** A 9x9 matrix of committed tile values (-1 for a tile with no committed value). */
  ghost predicate IsGrid(vals: seq<seq<int>>) {
    |vals| == 9 && forall i :: 0 <= i < 9 ==> |vals[i]| == 9
  }

  /** Square (i, j) holds the committed value of (row, col), in another row
      and another column: the test of `highlight_cross_sections_of_same_number`. */
  ghost predicate Match(vals: seq<seq<int>>, row: nat, col: nat, i: nat, j: nat)
    requires IsGrid(vals) && row < 9 && col < 9 && i < 9 && j < 9
  {
    vals[row][col] != -1 && i != row && j != col && vals[i][j] == vals[row][col]
  }

  /** Square (i, j) is highlighted by `highlight_cross_sections_of_same_number(row, col)`:
      its row or its column holds a matching square. */
  ghost predicate SameNumberLit(vals: seq<seq<int>>, row: nat, col: nat, i: nat, j: nat)
    requires IsGrid(vals) && row < 9 && col < 9 && i < 9 && j < 9
  {
    (exists b :: 0 <= b < 9 && Match(vals, row, col, i, b)) || (exists a :: 0 <= a < 9 && Match(vals, row, col, a, j))
  }

  /** Square (i, j) is highlighted by `highlight_cross_section(row, col)`,
      counting what it does before it raises: row `row` when row < 9, and
      column `col` and the same-number cross-sections when both are < 9. */
  ghost predicate CrossLit(vals: seq<seq<int>>, row: nat, col: nat, i: nat, j: nat)
    requires IsGrid(vals) && i < 9 && j < 9
  {
    (row < 9 && i == row) || (row < 9 && col < 9 && (j == col || SameNumberLit(vals, row, col, i, j)))
  }

  /** Row i holds a matching square among columns 0..n-1. */
  ghost predicate RowHitBefore(vals: seq<seq<int>>, row: nat, col: nat, i: nat, n: nat)
    requires IsGrid(vals) && row < 9 && col < 9 && i < 9 && n <= 9
  {
    n > 0 && (RowHitBefore(vals, row, col, i, n - 1) || Match(vals, row, col, i, n - 1))
  }

  /** Column j holds a matching square among rows 0..n-1. */
  ghost predicate ColHitBefore(vals: seq<seq<int>>, row: nat, col: nat, j: nat, n: nat)
    requires IsGrid(vals) && row < 9 && col < 9 && j < 9 && n <= 9
  {
    n > 0 && (ColHitBefore(vals, row, col, j, n - 1) || Match(vals, row, col, n - 1, j))
  }

  /** The recursive row test is the bounded search it stands for. */
  lemma {:induction false} RowHitBeforeMeans(vals: seq<seq<int>>, row: nat, col: nat, i: nat, n: nat)
    requires IsGrid(vals) && row < 9 && col < 9 && i < 9 && n <= 9
    ensures RowHitBefore(vals, row, col, i, n) <==> exists b :: 0 <= b < n && Match(vals, row, col, i, b)
  {
    if n > 0 {
      RowHitBeforeMeans(vals, row, col, i, n - 1);
    }
  }

  /** The recursive column test is the bounded search it stands for. */
  lemma {:induction false} ColHitBeforeMeans(vals: seq<seq<int>>, row: nat, col: nat, j: nat, n: nat)
    requires IsGrid(vals) && row < 9 && col < 9 && j < 9 && n <= 9
    ensures ColHitBefore(vals, row, col, j, n) <==> exists a :: 0 <= a < n && Match(vals, row, col, a, j)
  {
    if n > 0 {
      ColHitBeforeMeans(vals, row, col, j, n - 1);
    }
  }

  /** The committed values right after `create_game_board`: 5 in square
      (5, 6), where the note 5 stands alone, and no value anywhere else. */
  function PresetGrid(): (g: seq<seq<int>>)
    ensures IsGrid(g)
  {
    seq(9, i => seq(9, j => if i == 5 && j == 6 then 5 else -1))
  }

  /** The notes right after `create_game_board`: (2, 2) has every note,
      (5, 6) note 5 alone, (8, 3) notes 1, 3, 4, 5 and 9, and every other
      tile none; with the values they decode to. */
  ghost predicate PresetBoard(board: array2<Tile>)
    reads board, set p, q | 0 <= p < board.Length0 && 0 <= q < board.Length1 :: board[p, q]
  {
    && board.Length0 == 9 && board.Length1 == 9
    && board[2, 2].notes == seq(9, _ => true) && board[2, 2].value == -1
    && board[5, 6].notes == [false, false, false, false, true, false, false, false, false] && board[5, 6].value == 5
    && board[8, 3].notes == [true, false, true, true, true, false, false, false, true] && board[8, 3].value == -1
    && forall p, q :: 0 <= p < 9 && 0 <= q < 9 && (p, q) != (2, 2) && (p, q) != (5, 6) && (p, q) != (8, 3) ==>
      board[p, q].notes == seq(9, _ => false) && board[p, q].value == -1
  }

  class Sudoku {
    /** `game_board`, indexed [x, y] as the source indexes it. */
    var tiles: array2<Tile>
    /** `highlights`: which squares are highlighted. */
    var highlights: array2<bool>
    /** `current_cross_section`: the selected square, if any. */
    var cursor: Option<(nat, nat)>
    /** The committed value of every tile, `vals[x][y]` for square (x, y). */
    ghost var vals: seq<seq<int>>
    /** The square each tile sits in; that it is a map keeps every tile in one square. */
    ghost var square: map<Tile, (nat, nat)>

    /** The tile objects on the board. */
    ghost function TileSet(): set<Tile>
      reads this`tiles, tiles
    {
      set i, j | 0 <= i < tiles.Length0 && 0 <= j < tiles.Length1 :: tiles[i, j]
    }

    /** Both matrices are 9x9 and `vals` is the tiles' values. */
    ghost predicate Shaped()
      reads this`tiles, this`highlights, this`vals, tiles, TileSet()
    {
      && tiles.Length0 == 9 && tiles.Length1 == 9 && highlights.Length0 == 9 && highlights.Length1 == 9
      && IsGrid(vals)
      && forall i, j :: 0 <= i < 9 && 0 <= j < 9 ==> vals[i][j] == tiles[i, j].value
    }

    /** Every tile is consistent with its notes and no tile object sits in
        two squares. */
    ghost predicate Consistent()
      reads this`tiles, this`highlights, this`vals, this`square, tiles, TileSet()
    {
      && Shaped()
      && (forall i, j :: 0 <= i < 9 && 0 <= j < 9 ==> tiles[i, j].Valid())
      && (forall i, j :: 0 <= i < 9 && 0 <= j < 9 ==> tiles[i, j] in square && square[tiles[i, j]] == (i, j))
    }

    /** The board invariant: the tiles are consistent and the cursor is where
        arrows and clicks can put it. */
    ghost predicate Valid()
      reads this`tiles, this`highlights, this`vals, this`square, this`cursor, tiles, TileSet()
    {
      Consistent() && InReach(cursor)
    }

    /** `highlight_square`: set square (x, y) to `override`, or flip it when
        there is none; numpy raises IndexError for an index of 9 or more. */
    method HighlightSquare(x: nat, y: nat, override: Option<bool>) returns (out: Outcome)
      requires Shaped()
      modifies highlights
      ensures out == (if x < 9 && y < 9 then Ok else Raised(IndexError))
      ensures forall i, j :: 0 <= i < 9 && 0 <= j < 9 ==>
        highlights[i, j] == if out.Ok? && i == x && j == y
                            then (if override.Some? then override.value else !old(highlights[i, j]))
                            else old(highlights[i, j])
    {
      if x >= 9 || y >= 9 {
        return Raised(IndexError);
      }
      highlights[x, y] := if override.Some? then override.value else !highlights[x, y];
      out := Ok;
    }

    /** `highlight_row`: turn on every square of row `row`, keeping the others. */
    method HighlightRow(row: nat) returns (out: Outcome)
      requires Shaped()
      modifies highlights
      ensures out == (if row < 9 then Ok else Raised(IndexError))
      ensures forall i, j :: 0 <= i < 9 && 0 <= j < 9 ==> highlights[i, j] == (old(highlights[i, j]) || (row < 9 && i == row))
    {
      out := Ok;
      for j := 0 to 9
        invariant out == Ok && (j > 0 ==> row < 9)
        invariant forall p, q :: 0 <= p < 9 && 0 <= q < 9 ==> highlights[p, q] == (old(highlights[p, q]) || (p == row && q < j))
      {
        out := HighlightSquare(row, j, Some(true));
        if out.Raised? {
          return;
        }
      }
    }

    /** `highlight_column`: turn on every square of column `col`, keeping the others. */
    method HighlightColumn(col: nat) returns (out: Outcome)
      requires Shaped()
      modifies highlights
      ensures out == (if col < 9 then Ok else Raised(IndexError))
      ensures forall i, j :: 0 <= i < 9 && 0 <= j < 9 ==> highlights[i, j] == (old(highlights[i, j]) || (col < 9 && j == col))
    {
      out := Ok;
      for i := 0 to 9
        invariant out == Ok && (i > 0 ==> col < 9)
        invariant forall p, q :: 0 <= p < 9 && 0 <= q < 9 ==> highlights[p, q] == (old(highlights[p, q]) || (q == col && p < i))
      {
        out := HighlightSquare(i, col, Some(true));
        if out.Raised? {
          return;
        }
      }
    }

    /** `highlight_cross_sections_of_same_number`: when (row, col) holds a
        committed value, turn on the row and the column of every square
        that matches it. */
    method HighlightCrossSectionsOfSameNumber(row: nat, col: nat) returns (out: Outcome)
      requires Shaped()
      modifies highlights
      ensures old(Consistent()) ==> Consistent()
      ensures out == (if row < 9 && col < 9 then Ok else Raised(IndexError))
      ensures out.Raised? ==> unchanged(highlights)
      ensures out.Ok? ==> forall i, j :: 0 <= i < 9 && 0 <= j < 9 ==>
        highlights[i, j] == (old(highlights[i, j]) || SameNumberLit(vals, row, col, i, j))
    {
      if row >= 9 || col >= 9 {
        return Raised(IndexError);
      }
      out := Ok;
      var number := tiles[row, col].value;
      if number != -1 {
        for i := 0 to 9
          invariant forall p, q :: 0 <= p < 9 && 0 <= q < 9 ==>
            highlights[p, q] == (old(highlights[p, q]) || (p < i && RowHitBefore(vals, row, col, p, 9)) || ColHitBefore(vals, row, col, q, i))
        {
          for j := 0 to 9
            invariant forall p, q :: 0 <= p < 9 && 0 <= q < 9 ==>
              highlights[p, q] == (old(highlights[p, q]) || (p < i && RowHitBefore(vals, row, col, p, 9)) || (p == i && RowHitBefore(vals, row, col, i, j))
                                   || ColHitBefore(vals, row, col, q, i) || (q < j && Match(vals, row, col, i, q)))
          {
            if tiles[i, j].value == number && i != row && j != col {
              var r := HighlightRow(i);
              r := HighlightColumn(j);
            }
          }
        }
      }
      forall p, q | 0 <= p < 9 && 0 <= q < 9
        ensures RowHitBefore(vals, row, col, p, 9) || ColHitBefore(vals, row, col, q, 9) <==> SameNumberLit(vals, row, col, p, q)
      {
        RowHitBeforeMeans(vals, row, col, p, 9);
        ColHitBeforeMeans(vals, row, col, q, 9);
      }
    }

    /** `highlight_cross_section`: row, column, the square itself, then the
        same-number cross-sections; an IndexError from the row or the column
        stops it part-way. */
    method HighlightCrossSection(row: nat, col: nat) returns (out: Outcome)
      requires Shaped()
      modifies highlights
      ensures old(Consistent()) ==> Consistent()
      ensures out == (if row < 9 && col < 9 then Ok else Raised(IndexError))
      ensures forall i, j :: 0 <= i < 9 && 0 <= j < 9 ==> highlights[i, j] == (old(highlights[i, j]) || CrossLit(vals, row, col, i, j))
    {
      out := HighlightRow(row);
      if out.Raised? {
        return;
      }
      out := HighlightColumn(col);
      if out.Raised? {
        return;
      }
      out := HighlightSquare(row, col, Some(true));
      out := HighlightCrossSectionsOfSameNumber(row, col);
    }

    /** `highlight_sub_grid`: turn on the 3x3 box (row, col), rows 3 * row to
        3 * row + 2 and columns 3 * col to 3 * col + 2; a box index above 2
        raises ValueError. */
    method HighlightSubGrid(row: nat, col: nat) returns (out: Outcome)
      requires Shaped()
      modifies highlights
      ensures out == (if row <= 2 && col <= 2 then Ok else Raised(ValueError))
      ensures forall i, j :: 0 <= i < 9 && 0 <= j < 9 ==>
        highlights[i, j] == (old(highlights[i, j]) || (out.Ok? && i / 3 == row && j / 3 == col))
    {
      if row > 2 || col > 2 {
        return Raised(ValueError);
      }
      for i := 0 to 3
        invariant forall p, q :: 0 <= p < 9 && 0 <= q < 9 ==>
          highlights[p, q] == (old(highlights[p, q]) || (p / 3 == row && q / 3 == col && p < 3 * row + i))
      {
        for j := 0 to 3
          invariant forall p, q :: 0 <= p < 9 && 0 <= q < 9 ==>
            highlights[p, q] == (old(highlights[p, q]) || (p / 3 == row && q / 3 == col && (p < 3 * row + i || (p == 3 * row + i && q < 3 * col + j))))
        {
          var r := HighlightSquare(i + 3 * row, j + 3 * col, Some(true));
        }
      }
      out := Ok;
    }

    /** `reset_highlights`: turn every highlighted square off. */
    method ResetHighlights()
      requires Shaped()
      modifies highlights
      ensures old(Consistent()) ==> Consistent()
      ensures forall i, j :: 0 <= i < 9 && 0 <= j < 9 ==> !highlights[i, j]
    {
      for i := 0 to 9
        invariant forall p, q :: 0 <= p < 9 && 0 <= q < 9 ==> highlights[p, q] == (old(highlights[p, q]) && p >= i)
      {
        for j := 0 to 9
          invariant forall p, q :: 0 <= p < 9 && 0 <= q < 9 ==> highlights[p, q] == (old(highlights[p, q]) && (p > i || (p == i && q >= j)))
        {
          if highlights[i, j] {
            var r := HighlightSquare(i, j, Some(false));
          }
        }
      }
    }

    /** The tile-creating loop of `create_game_board`: a 9x9 array of
        distinct new tiles, each with no note set. */
    static method CreateTiles() returns (board: array2<Tile>, ghost square: map<Tile, (nat, nat)>)
      ensures fresh(board) && board.Length0 == 9 && board.Length1 == 9
      ensures forall p, q :: 0 <= p < 9 && 0 <= q < 9 ==>
        && fresh(board[p, q]) && board[p, q].Valid() && board[p, q].notes == seq(9, _ => false)
        && board[p, q] in square && square[board[p, q]] == (p, q)
    {
      var first := new Tile();
      board := new Tile[9, 9]((i, j) => first);
      square := map[];
      for i := 0 to 9
        invariant forall p, q :: 0 <= p < i && 0 <= q < 9 ==>
          && fresh(board[p, q]) && board[p, q].Valid() && board[p, q].notes == seq(9, _ => false)
          && board[p, q] in square && square[board[p, q]] == (p, q)
      {
        for j := 0 to 9
          invariant forall p, q :: (0 <= p < i && 0 <= q < 9) || (p == i && 0 <= q < j) ==>
            && fresh(board[p, q]) && board[p, q].Valid() && board[p, q].notes == seq(9, _ => false)
            && board[p, q] in square && square[board[p, q]] == (p, q)
        {
          var tile := new Tile();
          board[i, j] := tile;
          square := square[tile := (i, j)];
        }
      }
    }

    /** `create_game_board` and `__init__`, drawing left out: 81 fresh tiles,
        three of them given preset notes, no highlight and no selection. */
    constructor ()
      ensures Valid() && fresh(tiles) && fresh(highlights)
      ensures cursor == None
      ensures forall i, j :: 0 <= i < 9 && 0 <= j < 9 ==> !highlights[i, j]
      ensures PresetBoard(tiles)
    {
      var unlit := NoHighlights();
      var board;
      ghost var owner, grid;
      board, owner, grid := CreateGameBoard();
      tiles := board;
      square := owner;
      highlights := unlit;
      cursor := None;
      vals := grid;
    }

    /** `create_game_board`: 81 fresh tiles, each in its own square, three
        of them given preset notes; `grid` is the values they decode to. */
    static method CreateGameBoard() returns (board: array2<Tile>, ghost owner: map<Tile, (nat, nat)>, ghost grid: seq<seq<int>>)
      ensures fresh(board) && board.Length0 == 9 && board.Length1 == 9 && grid == PresetGrid()
      ensures forall p, q :: 0 <= p < 9 && 0 <= q < 9 ==>
        && board[p, q].Valid() && board[p, q].value == grid[p][q]
        && board[p, q] in owner && owner[board[p, q]] == (p, q)
      ensures PresetBoard(board)
    {
      board, owner := CreateTiles();
      PresetAll(board, owner);
      grid := PresetGrid();
    }

    /** `self.highlights = np.zeros((9, 9))`: no square highlighted. */
    static method NoHighlights() returns (unlit: array2<bool>)
      ensures fresh(unlit) && unlit.Length0 == 9 && unlit.Length1 == 9
      ensures forall i, j :: 0 <= i < 9 && 0 <= j < 9 ==> !unlit[i, j]
    {
      unlit := new bool[9, 9]((i, j) => false);
    }

    /** The three preset tiles of `create_game_board`: (2, 2) with every
        note, (5, 6) with note 5 alone and (8, 3) with notes 1, 3, 4, 5 and 9. */
    static method PresetAll(board: array2<Tile>, ghost owner: map<Tile, (nat, nat)>)
      requires board.Length0 == 9 && board.Length1 == 9
      requires forall p, q :: 0 <= p < 9 && 0 <= q < 9 ==>
        && board[p, q].Valid() && board[p, q].notes == seq(9, _ => false)
        && board[p, q] in owner && owner[board[p, q]] == (p, q)
      modifies board[2, 2], board[5, 6], board[8, 3]
      ensures forall p, q :: 0 <= p < 9 && 0 <= q < 9 ==> board[p, q].Valid() && board[p, q].value == PresetGrid()[p][q]
      ensures PresetBoard(board)
    {
      PresetValues();
      Preset(board, owner, 2, 2, seq(9, _ => true));
      Preset(board, owner, 5, 6, [false, false, false, false, true, false, false, false, false]);
      Preset(board, owner, 8, 3, [true, false, true, true, true, false, false, false, true]);
    }

    /** Give the tile in square (x, y) of a fresh board a preset note vector
        and decode it, as `create_game_board` does for its three preset tiles. */
    static method Preset(board: array2<Tile>, ghost owner: map<Tile, (nat, nat)>, x: nat, y: nat, notes: seq<bool>)
      requires board.Length0 == 9 && board.Length1 == 9 && x < 9 && y < 9 && |notes| == 9
      requires forall p, q :: 0 <= p < 9 && 0 <= q < 9 ==> board[p, q] in owner && owner[board[p, q]] == (p, q)
      modifies board[x, y]
      ensures board[x, y].Valid() && board[x, y].notes == notes
      ensures forall p, q :: 0 <= p < 9 && 0 <= q < 9 && (p != x || q != y) ==> board[p, q] != board[x, y]
    {
      var tile := board[x, y];
      tile.notes := notes;
      tile.DisplayNotes();
      forall p, q | 0 <= p < 9 && 0 <= q < 9 && (p != x || q != y)
        ensures board[p, q] != tile
      {
        assert owner[board[p, q]] != owner[tile];
      }
    }

    /** `number_pressed`: with a selection (x, y), flip note key - 1 of that
        tile, decode it again, and highlight the cross-sections of squares
        holding its new value; without one, do nothing. A selection with y = 9
        makes numpy raise IndexError before anything changes. */
    method NumberPressed(key: nat) returns (out: Outcome)
      requires Valid() && 1 <= key <= 9
      modifies this`vals, highlights, TileSet()
      ensures Valid()
      ensures (old(cursor).None? || old(cursor).value.0 >= 9 || old(cursor).value.1 >= 9) ==>
        && out == (if old(cursor).None? then Ok else Raised(IndexError))
        && unchanged(highlights)
        && forall i, j :: 0 <= i < 9 && 0 <= j < 9 ==> tiles[i, j].notes == old(tiles[i, j].notes)
      ensures cursor.Some? && cursor.value.0 < 9 && cursor.value.1 < 9 ==>
        var (x, y) := cursor.value;
        && out == Ok
        && tiles[x, y].notes == Toggle(old(tiles[x, y].notes), key - 1)
        && (forall i, j :: 0 <= i < 9 && 0 <= j < 9 && (i != x || j != y) ==> tiles[i, j].notes == old(tiles[i, j].notes))
        && forall i, j :: 0 <= i < 9 && 0 <= j < 9 ==> highlights[i, j] == (old(highlights[i, j]) || SameNumberLit(vals, x, y, i, j))
    {
      if cursor.None? {
        return Ok;
      }
      var (x, y) := cursor.value;
      if x >= 9 || y >= 9 {
        return Raised(IndexError);
      }
      ToggleNote(x, y, key - 1);
      out := Ok;
      if tiles[x, y].value != -1 {
        out := HighlightCrossSectionsOfSameNumber(x, y);
      }
    }

    /** The first two statements of `number_pressed`: flip note k of the tile
        in square (x, y) and decode its notes again; no other tile changes. */
    method ToggleNote(x: nat, y: nat, k: nat)
      requires Valid() && x < 9 && y < 9 && k < 9
      modifies this`vals, TileSet()
      ensures Valid() && unchanged(highlights)
      ensures tiles[x, y].notes == Toggle(old(tiles[x, y].notes), k)
      ensures forall i, j :: 0 <= i < 9 && 0 <= j < 9 && (i != x || j != y) ==> tiles[i, j].notes == old(tiles[i, j].notes)
    {
      var tile := tiles[x, y];
      tile.notes := tile.notes[k := !tile.notes[k]];
      tile.DisplayNotes();
      vals := vals[x := vals[x][y := tile.value]];
    }

    /** The four guarded assignments of `arrow_pressed` that pick the new
        selection, kept as the source's sequence of separate `if`s (not an
        `elif` chain) and proved to compute `Move`; `Blocked` when none of
        them fires and x, y stay unbound. */
    static method PickStep(cursor: Option<(nat, nat)>, key: Arrow) returns (moved: Step)
      ensures moved == Move(cursor, key)
    {
      moved := Blocked;
      if cursor.None? {
        moved := Moved(0, 0);
      } else {
        var (cx, cy) := cursor.value;
        if key == Up && cy != 0 {
          moved := Moved(cx, cy - 1);
        }
        if key == Left && cx != 0 {
          moved := Moved(cx - 1, cy);
        }
        if key == Right && cx != 8 {
          moved := Moved(cx + 1, cy);
        }
        if key == Down && cy != 9 {
          moved := Moved(cx, cy + 1);
        }
      }
    }

    /** `arrow_pressed`: move the selection as `Move` says, then clear the
        highlights and highlight the new cross-section. A blocked move
        leaves x, y unassigned and raises before anything changes; a move to
        y = 9 keeps the new selection but raises part-way through highlighting. */
    method ArrowPressed(key: Arrow) returns (out: Outcome)
      requires Valid()
      modifies this`cursor, highlights
      ensures Valid()
      ensures Move(old(cursor), key).Blocked? ==>
        out == Raised(UnboundLocalError) && cursor == old(cursor) && unchanged(highlights)
      ensures Move(old(cursor), key).Moved? ==>
        var s := Move(old(cursor), key);
        && cursor == Some((s.x, s.y))
        && out == (if s.x < 9 && s.y < 9 then Ok else Raised(IndexError))
        && forall i, j :: 0 <= i < 9 && 0 <= j < 9 ==> highlights[i, j] == CrossLit(vals, s.x, s.y, i, j)
    {
      var moved := PickStep(cursor, key);
      if moved.Blocked? {
        return Raised(UnboundLocalError);
      }
      MoveStaysInReach(cursor, key);
      var x, y := moved.x, moved.y;
      cursor := Some((x, y));
      out := HighlightSelection(x, y);
    }

    /** The tail of `arrow_pressed`: clear the highlights, highlight the
        cross-section of (x, y), and once more the same-number
        cross-sections when (x, y) holds a value; all of it is the cross-section. */
    method HighlightSelection(x: nat, y: nat) returns (out: Outcome)
      requires Shaped()
      modifies highlights
      ensures out == (if x < 9 && y < 9 then Ok else Raised(IndexError))
      ensures forall i, j :: 0 <= i < 9 && 0 <= j < 9 ==> highlights[i, j] == CrossLit(vals, x, y, i, j)
    {
      ResetHighlights();
      out := HighlightCrossSection(x, y);
      if out.Raised? {
        return;
      }
      if tiles[x, y].value != -1 {
        out := HighlightCrossSectionsOfSameNumber(x, y);
      }
    }

    /** `right_click`: map the click to a square; when both indices are in
        0..9, clear the highlights, highlight that cross-section and select
        the square. Index 9 (the canvas padding) raises IndexError part-way
        through highlighting, before the selection is made. */
    method RightClick(px: int, py: int, origin: Option<(int, int)>) returns (out: Outcome)
      requires Valid()
      modifies this`cursor, highlights
      ensures Valid()
      ensures var (sx, sy) := ClickedSquare(px, py, origin);
        if 0 <= sx <= 9 && 0 <= sy <= 9 then
          && out == (if sx < 9 && sy < 9 then Ok else Raised(IndexError))
          && cursor == (if out.Ok? then Some((sx, sy)) else old(cursor))
          && forall i, j :: 0 <= i < 9 && 0 <= j < 9 ==> highlights[i, j] == CrossLit(vals, sx, sy, i, j)
        else
          out == Ok && cursor == old(cursor) && unchanged(highlights)
    {
      var ex, ey := px, py;
      if origin.Some? {
        ex, ey := ex + origin.value.0, ey + origin.value.1;
      }
      var squareX := CellOf(ex, AnchorX);
      var squareY := CellOf(ey, AnchorY);
      out := Ok;
      if 0 <= squareX <= 9 && 0 <= squareY <= 9 {
        ResetHighlights();
        out := HighlightCrossSection(squareX, squareY);
        if out.Raised? {
          return;
        }
        cursor := Some((squareX, squareY));
      }
    }
  }
}