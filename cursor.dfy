/** The selection cursor (`current_cross_section`): the step an arrow key
    makes, and the mapping from a click's pixel position to a square. */
module Cursor {
  import opened Outcomes

  /** Padding between the window edge and the board, and the side of a square, in pixels. */
  const AnchorX: int := 10
  const AnchorY: int := 10
  const SquareSize: int := 55
  /** Side of the square canvas: both paddings plus nine squares. */
  const CanvasSize: int := AnchorX + AnchorY + 9 * SquareSize

  /** The four arrow keys bound to `arrow_pressed`. */
  datatype Arrow = Up | Left | Right | Down

  /** Where an arrow key puts the cursor, or Blocked when the key's guard
      fails and no branch assigns the new position. */
  datatype Step = Moved(x: nat, y: nat) | Blocked

  /** The arrow step as written: no selection jumps to (0, 0); Up, Left,
      Right and Down change y - 1, x - 1, x + 1 and y + 1, guarded by
      y != 0, x != 0, x != 8 and y != 9. */
  function Move(cursor: Option<(nat, nat)>, key: Arrow): Step {
    match cursor
    case None => Moved(0, 0)
    case Some((x, y)) =>
      match key
      case Up => if y != 0 then Moved(x, y - 1) else Blocked
      case Left => if x != 0 then Moved(x - 1, y) else Blocked
      case Right => if x != 8 then Moved(x + 1, y) else Blocked
      case Down => if y != 9 then Moved(x, y + 1) else Blocked
  }

  /** The positions the cursor can hold: x in 0..8, but y in 0..9, one
      past the board, because the Down guard compares with 9. */
  predicate InReach(cursor: Option<(nat, nat)>) {
    cursor.Some? ==> cursor.value.0 < 9 && cursor.value.1 <= 9
  }

  /** An arrow step from a reachable position stays reachable, and moves
      by exactly one square in the key's direction. */
  lemma MoveStaysInReach(cursor: Option<(nat, nat)>, key: Arrow)
    requires InReach(cursor)
    ensures Move(cursor, key).Moved? ==> InReach(Some((Move(cursor, key).x, Move(cursor, key).y)))
    ensures cursor.Some? && Move(cursor, key).Moved? ==>
      var (x, y) := cursor.value;
      var s := Move(cursor, key);
      (key == Up ==> s.x == x && s.y == y - 1) && (key == Down ==> s.x == x && s.y == y + 1) &&
      (key == Left ==> s.x == x - 1 && s.y == y) && (key == Right ==> s.x == x + 1 && s.y == y)
  {
  }

  /** A blocked step happens exactly at the edge the key points to. */
  lemma BlockedAtEdge(x: nat, y: nat, key: Arrow)
    ensures Move(Some((x, y)), key) == Blocked <==>
      (key == Up && y == 0) || (key == Left && x == 0) || (key == Right && x == 8) || (key == Down && y == 9)
  {
  }

  /** Down from y = 8, the last index on the board, lands on y = 9, which is off the board. */
  lemma DownLeavesBoard(x: nat)
    ensures Move(Some((x, 8)), Down) == Moved(x, 9)
  {
  }

  /** Opposite keys undo each other wherever the first step is allowed. */
  lemma OppositeStepsCancel(x: nat, y: nat)
    requires x < 9 && y <= 9
    ensures y != 0 ==> Move(Some((x, y - 1)), Down) == Moved(x, y)
    ensures y != 9 ==> Move(Some((x, y + 1)), Up) == Moved(x, y)
    ensures x != 0 ==> Move(Some((x - 1, y)), Right) == Moved(x, y)
    ensures x != 8 ==> Move(Some((x + 1, y)), Left) == Moved(x, y)
  {
  }

  /** The square a pixel coordinate falls in, `floor((p - anchor) / 55)`:
      the k whose 55-pixel band [anchor + 55k, anchor + 55(k + 1)) holds p. */
  function CellOf(p: int, anchor: int): (k: int)
    ensures anchor + k * SquareSize <= p < anchor + (k + 1) * SquareSize
  {
    (p - anchor) / SquareSize
  }

  /** The band is unique: any k whose band holds p is CellOf(p). */
  lemma CellOfUnique(p: int, anchor: int, k: int)
    requires anchor + k * SquareSize <= p < anchor + (k + 1) * SquareSize
    ensures CellOf(p, anchor) == k
  {
  }

  /** A click in the canvas's right or bottom padding maps to square 9. */
  lemma PaddingMapsToNine(p: int)
    requires CanvasSize - AnchorX <= p < CanvasSize
    ensures CellOf(p, AnchorX) == 9
  {
    CellOfUnique(p, AnchorX, 9);
  }

  /** The square `right_click` computes for a click at (px, py): relative to
      the canvas, or, when `origin` is given, relative to a tile's label whose
      top-left corner is at `origin` on the canvas. */
  function ClickedSquare(px: int, py: int, origin: Option<(int, int)>): (int, int) {
    var (cx, cy) := if origin.Some? then (px + origin.value.0, py + origin.value.1) else (px, py);
    (CellOf(cx, AnchorX), CellOf(cy, AnchorY))
  }
}
