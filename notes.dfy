/** The note vector of one tile: nine flags, flag k standing for digit k + 1.
    This module decodes a vector into the tile's committed value and lays it
    out as the text of the tile's label, as `Tile.display_notes` does. */
module Notes {

  /** Number of set flags. */
  function Count(notes: seq<bool>): (n: nat)
    ensures n <= |notes|
  {
    if notes == [] then 0
    else Count(notes[..|notes| - 1]) + (if notes[|notes| - 1] then 1 else 0)
  }

  /** Index of the last set flag, or -1 when no flag is set. */
  function LastSet(notes: seq<bool>): (k: int)
    ensures -1 <= k < |notes|
    ensures k >= 0 ==> notes[k] && forall i :: k < i < |notes| ==> !notes[i]
    ensures k == -1 ==> forall i :: 0 <= i < |notes| ==> !notes[i]
  {
    if notes == [] then -1
    else if notes[|notes| - 1] then |notes| - 1
    else LastSet(notes[..|notes| - 1])
  }

  /** Flag k is set and it is the only one. */
  ghost predicate IsSole(notes: seq<bool>, k: int) {
    0 <= k < |notes| && notes[k] && forall i :: 0 <= i < |notes| && i != k ==> !notes[i]
  }

  /** The committed value of a tile: digit k + 1 when flag k is the only
      flag set, and -1 when no flag or two or more flags are set. */
  function Value(notes: seq<bool>): (v: int)
    ensures v == -1 || (1 <= v <= |notes| && IsSole(notes, v - 1))
    ensures forall k {:trigger IsSole(notes, k)} :: IsSole(notes, k) ==> v == k + 1
  {
    SoleIsCountOne(notes);
    if Count(notes) == 1 then CountOneIsSole(notes); LastSet(notes) + 1 else -1
  }

  /** The count is zero exactly when no flag is set. */
  lemma {:induction false} NoneSetIsCountZero(notes: seq<bool>)
    ensures Count(notes) == 0 <==> forall i :: 0 <= i < |notes| ==> !notes[i]
  {
    if notes != [] {
      var init := notes[..|notes| - 1];
      NoneSetIsCountZero(init);
      assert forall i :: 0 <= i < |init| ==> init[i] == notes[i];
    }
  }

  /** Flags that are all clear from index n on add nothing to the count. */
  lemma {:induction false} ClearTailCount(notes: seq<bool>, n: nat)
    requires n <= |notes|
    requires forall i :: n <= i < |notes| ==> !notes[i]
    ensures Count(notes) == Count(notes[..n])
    decreases |notes| - n
  {
    if n < |notes| {
      var init := notes[..|notes| - 1];
      assert init[..n] == notes[..n];
      ClearTailCount(init, n);
    } else {
      assert notes[..n] == notes;
    }
  }

  /** A vector with a sole set flag k has count one and last set flag k. */
  lemma SoleIsCountOne(notes: seq<bool>)
    ensures forall k {:trigger IsSole(notes, k)} :: IsSole(notes, k) ==> Count(notes) == 1 && LastSet(notes) == k
  {
    forall k | IsSole(notes, k) ensures Count(notes) == 1 && LastSet(notes) == k {
      ClearTailCount(notes, k + 1);
      var init := notes[..k];
      assert notes[..k + 1][..k] == init;
      NoneSetIsCountZero(init);
    }
  }

  /** With a count of one, the last set flag is the only one. */
  lemma CountOneIsSole(notes: seq<bool>)
    requires Count(notes) == 1
    ensures IsSole(notes, LastSet(notes))
  {
    var k := LastSet(notes);
    NoneSetIsCountZero(notes);
    ClearTailCount(notes, k + 1);
    var init := notes[..k];
    assert notes[..k + 1][..k] == init;
    NoneSetIsCountZero(init);
    assert forall i :: 0 <= i < k ==> init[i] == notes[i];
  }

  /** The character Python's `str` gives for a single digit d. */
  function DigitChar(d: int): (c: char)
    requires 0 <= d <= 9
    ensures '0' <= c <= '9'
  {
    ('0' as int + d) as char
  }

  /** The character shown in slot k of the 3x3 layout. */
  function Slot(notes: seq<bool>, k: nat): char
    requires k < |notes| && k < 9
  {
    if notes[k] then DigitChar(k + 1) else ' '
  }

  /** The first j slots of layout line i, each but the last followed by a
      three-space gap. */
  function Cells(notes: seq<bool>, i: nat, j: nat): string
    requires |notes| == 9 && i < 3 && j <= 3
  {
    if j == 0 then ""
    else Cells(notes, i, j - 1) + [Slot(notes, 3 * i + j - 1)] + (if j - 1 != 2 then "   " else "")
  }

  /** The first i lines of the layout, each but the last followed by a newline. */
  function Rows(notes: seq<bool>, i: nat): string
    requires |notes| == 9 && i <= 3
  {
    if i == 0 then ""
    else Rows(notes, i - 1) + Cells(notes, i - 1, 3) + (if i - 1 != 2 then "\n" else "")
  }

  /** The 3x3 layout used when two or more flags are set. */
  function Grid(notes: seq<bool>): string
    requires |notes| == 9
  {
    Rows(notes, 3)
  }

  /** Nine spaces: one line of an empty tile's label. */
  function Spaces(): string {
    seq(9, _ => ' ')
  }

  /** The hard-coded label text of a tile with no flag set: three lines of
      nine spaces. */
  const Blank: string := Spaces() + "\n" + Spaces() + "\n" + Spaces()

  /** The label text `display_notes` gives a tile. */
  function LabelText(notes: seq<bool>): string
    requires |notes| == 9
  {
    var n := Count(notes);
    if n == 0 then Blank
    else if n == 1 then [DigitChar(Value(notes))]
    else Grid(notes)
  }

  /** The character at position p of the layout, described by geometry:
      lines of nine characters at offsets 0, 10 and 20 joined by newlines,
      slot j of line i at column 4 * j, spaces everywhere else. */
  function LayoutChar(notes: seq<bool>, p: nat): char
    requires |notes| == 9 && p < 29
  {
    var line, column := p / 10, p % 10;
    if column == 9 then '\n'
    else if column % 4 == 0 then Slot(notes, 3 * line + column / 4)
    else ' '
  }

  /** Line i of the layout, written out slot by slot. */
  lemma LineSpelledOut(notes: seq<bool>, i: nat)
    requires |notes| == 9 && i < 3
    ensures Cells(notes, i, 3) == [Slot(notes, 3 * i)] + "   " + [Slot(notes, 3 * i + 1)] + "   " + [Slot(notes, 3 * i + 2)]
  {
    assert Cells(notes, i, 1) == [Slot(notes, 3 * i)] + "   ";
    assert Cells(notes, i, 2) == Cells(notes, i, 1) + [Slot(notes, 3 * i + 1)] + "   ";
  }

  /** The layout is its three lines joined by newlines. */
  lemma GridLines(notes: seq<bool>)
    requires |notes| == 9
    ensures Grid(notes) == Cells(notes, 0, 3) + "\n" + Cells(notes, 1, 3) + "\n" + Cells(notes, 2, 3)
  {
    assert Rows(notes, 1) == Cells(notes, 0, 3) + "\n";
    assert Rows(notes, 2) == Rows(notes, 1) + Cells(notes, 1, 3) + "\n";
  }

  /** Line i has nine characters: slot 3 * i + c / 4 at every fourth column c, spaces between. */
  lemma {:induction false} LineLayout(notes: seq<bool>, i: nat)
    requires |notes| == 9 && i < 3
    ensures |Cells(notes, i, 3)| == 9
    ensures forall c :: 0 <= c < 9 ==> Cells(notes, i, 3)[c] == (if c % 4 == 0 then Slot(notes, 3 * i + c / 4) else ' ')
  {
    LineSpelledOut(notes, i);
    var line := Cells(notes, i, 3);
    forall c | 0 <= c < 9
      ensures line[c] == (if c % 4 == 0 then Slot(notes, 3 * i + c / 4) else ' ')
    {
      if c < 4 {
        assert c / 4 == 0;
      } else if c < 8 {
        assert c / 4 == 1;
      } else {
        assert c / 4 == 2;
      }
    }
  }

  /** Every line of the layout has nine characters; slot (i, j) sits at
      column 4 * j of line i and shows digit 3 * i + j + 1 when its flag is
      set; every other character is a space. */
  lemma GridLayout(notes: seq<bool>)
    requires |notes| == 9
    ensures |Grid(notes)| == 29
    ensures forall p :: 0 <= p < 29 ==> Grid(notes)[p] == LayoutChar(notes, p)
  {
    GridLines(notes);
    LineLayout(notes, 0);
    LineLayout(notes, 1);
    LineLayout(notes, 2);
    var l0, l1, l2 := Cells(notes, 0, 3), Cells(notes, 1, 3), Cells(notes, 2, 3);
    var g := Grid(notes);
    assert g == (l0 + "\n") + (l1 + "\n") + l2;
    forall p | 0 <= p < 29 ensures g[p] == LayoutChar(notes, p) {
      if p < 10 {
        assert p / 10 == 0 && p % 10 == p;
        assert g[p] == (l0 + "\n")[p];
      } else if p < 20 {
        assert p / 10 == 1 && p % 10 == p - 10;
        assert g[p] == (l1 + "\n")[p - 10];
      } else {
        assert p / 10 == 2 && p % 10 == p - 20;
        assert g[p] == l2[p - 20];
      }
    }
  }

  /** The hard-coded text of an empty tile is the layout of an all-clear vector. */
  lemma BlankIsEmptyGrid(notes: seq<bool>)
    requires |notes| == 9 && Count(notes) == 0
    ensures LabelText(notes) == Grid(notes)
  {
    NoneSetIsCountZero(notes);
    GridLines(notes);
    forall i | 0 <= i < 3
      ensures Cells(notes, i, 3) == Spaces()
    {
      assert Cells(notes, i, 1) == seq(4, _ => ' ');
      assert Cells(notes, i, 2) == seq(8, _ => ' ');
    }
  }

  /** The label text shows digit d exactly when flag d - 1 is set, whichever
      of the three forms the text takes. */
  lemma TextShowsNotes(notes: seq<bool>, d: int)
    requires |notes| == 9 && 1 <= d <= 9
    ensures DigitChar(d) in LabelText(notes) <==> notes[d - 1]
  {
    var n := Count(notes);
    if n == 0 {
      NoneSetIsCountZero(notes);
      BlankIsEmptyGrid(notes);
      GridShowsNotes(notes, d);
    } else if n == 1 {
      CountOneIsSole(notes);
    } else {
      GridShowsNotes(notes, d);
    }
  }

  /** Line i of the layout shows digit d exactly when d is one of the line's
      three digits and its flag is set. */
  lemma LineShowsNotes(notes: seq<bool>, i: nat, d: int)
    requires |notes| == 9 && i < 3 && 1 <= d <= 9
    ensures DigitChar(d) in Cells(notes, i, 3) <==> 3 * i <= d - 1 < 3 * i + 3 && notes[d - 1]
  {
    LineSpelledOut(notes, i);
    var c := DigitChar(d);
    assert c !in "   ";
    assert Slot(notes, 3 * i) == c <==> 3 * i == d - 1 && notes[d - 1];
    assert Slot(notes, 3 * i + 1) == c <==> 3 * i + 1 == d - 1 && notes[d - 1];
    assert Slot(notes, 3 * i + 2) == c <==> 3 * i + 2 == d - 1 && notes[d - 1];
  }

  /** The 3x3 layout shows digit d exactly when flag d - 1 is set. */
  lemma GridShowsNotes(notes: seq<bool>, d: int)
    requires |notes| == 9 && 1 <= d <= 9
    ensures DigitChar(d) in Grid(notes) <==> notes[d - 1]
  {
    GridLines(notes);
    LineShowsNotes(notes, 0, d);
    LineShowsNotes(notes, 1, d);
    LineShowsNotes(notes, 2, d);
    assert DigitChar(d) !in "\n";
  }

  /** The flip `number_pressed` applies to flag k. */
  function Toggle(notes: seq<bool>, k: nat): (t: seq<bool>)
    requires k < |notes|
    ensures |t| == |notes| && t[k] != notes[k]
    ensures forall i :: 0 <= i < |notes| && i != k ==> t[i] == notes[i]
  {
    notes[k := !notes[k]]
  }

  /** Flipping the same flag twice restores the vector. */
  lemma ToggleTwice(notes: seq<bool>, k: nat)
    requires k < |notes|
    ensures Toggle(Toggle(notes, k), k) == notes
  {
  }

  /** On a tile with no flag set, flipping flag k commits digit k + 1. */
  lemma ToggleCommits(notes: seq<bool>, k: nat)
    requires k < |notes| && Count(notes) == 0
    ensures Value(Toggle(notes, k)) == k + 1
  {
    NoneSetIsCountZero(notes);
    assert IsSole(Toggle(notes, k), k);
  }

  /** Flipping the only set flag leaves the tile empty again. */
  lemma ToggleClears(notes: seq<bool>, k: nat)
    requires IsSole(notes, k)
    ensures Count(Toggle(notes, k)) == 0 && Value(Toggle(notes, k)) == -1
  {
    NoneSetIsCountZero(Toggle(notes, k));
  }

  /** The note vectors the board starts with: no flag (no value), all nine flags (no value),
      flag 4 alone (value 5), and flags 0, 2, 3, 4 and 8 (no value). */
  lemma PresetValues()
    ensures Value(seq(9, _ => false)) == -1
    ensures Value(seq(9, _ => true)) == -1
    ensures Value([false, false, false, false, true, false, false, false, false]) == 5
    ensures Value([true, false, true, true, true, false, false, false, true]) == -1
  {
    assert IsSole([false, false, false, false, true, false, false, false, false], 4);
    var full, mixed := seq(9, _ => true), [true, false, true, true, true, false, false, false, true];
    forall k | 0 <= k < 9
      ensures !IsSole(full, k) && !IsSole(mixed, k)
    {
      assert full[if k == 0 then 1 else 0];
      assert mixed[if k == 0 then 2 else 0];
    }
  }
}
