/** One square of the board (`Sudoku.Tile`): its note flags, the committed
    value decoded from them, and the text of its label. */
module Tiles {
  import opened Notes

  class Tile {
    var value: int
    var notes: seq<bool>
    /** The text last given to the tile's label. */
    var text: string

    /** What `display_notes` leaves behind: value and text agree with the flags. */
    ghost predicate Valid()
      reads this
    {
      |notes| == 9 && value == Value(notes) && text == LabelText(notes)
    }

    /** A new tile has no flag set, value -1 and the blank text. */
    constructor ()
      ensures Valid()
      ensures notes == seq(9, _ => false) && value == -1 && text == Blank
    {
      value := -1;
      notes := seq(9, _ => false);
      new;
      DisplayNotes();
      NoneSetIsCountZero(notes);
    }

    /** `display_notes`: recomputes the value and the label text from the flags. */
    method DisplayNotes()
      requires |notes| == 9
      modifies this
      ensures notes == old(notes) && Valid()
    {
      value := -1;
      var count := CountFlags(notes);
      if count == 0 {
        text := Blank;
      } else if count == 1 {
        var number := LastFlag(notes);
        CountOneIsSole(notes);
        value := number;
        text := [DigitChar(number)];
      } else {
        var output := Layout(notes);
        text := output;
      }
    }
  }

  /** The first loop of `display_notes`: how many flags are set. */
  method CountFlags(notes: seq<bool>) returns (count: nat)
    requires |notes| == 9
    ensures count == Count(notes)
  {
    count := 0;
    for i := 0 to 9
      invariant count == Count(notes[..i])
    {
      assert notes[..i + 1][..i] == notes[..i];
      if notes[i] {
        count := count + 1;
      }
    }
    assert notes[..9] == notes;
  }

  /** The loop of the one-flag case of `display_notes`: the digit of the
      last flag set, or -1 when there is none. */
  method LastFlag(notes: seq<bool>) returns (number: int)
    requires |notes| == 9
    ensures number == -1 || 1 <= number <= 9
    ensures number == -1 ==> forall i :: 0 <= i < 9 ==> !notes[i]
    ensures number != -1 ==> notes[number - 1] && forall i :: number <= i < 9 ==> !notes[i]
  {
    number := -1;
    for i := 0 to 9
      invariant number == (if LastSet(notes[..i]) == -1 then -1 else LastSet(notes[..i]) + 1)
    {
      assert notes[..i + 1][..i] == notes[..i];
      if notes[i] {
        number := i + 1;
      }
    }
    assert notes[..9] == notes;
  }

  /** The nested loops of the many-flags case of `display_notes`: the 3x3
      layout, slot by slot, gaps and newlines included. */
  method Layout(notes: seq<bool>) returns (output: string)
    requires |notes| == 9
    ensures output == Grid(notes)
  {
    output := "";
    for i := 0 to 3
      invariant output == Rows(notes, i)
    {
      for j := 0 to 3
        invariant output == Rows(notes, i) + Cells(notes, i, j)
      {
        if notes[3 * i + j] {
          output := output + [DigitChar(3 * i + j + 1)];
        } else {
          output := output + " ";
        }
        if j != 2 {
          output := output + "   ";
        }
        assert Rows(notes, i) + Cells(notes, i, j + 1) == Rows(notes, i) + Cells(notes, i, j) + [Slot(notes, 3 * i + j)] + (if j != 2 then "   " else "");
      }
      if i != 2 {
        output := output + "\n";
      }
    }
  }
}
