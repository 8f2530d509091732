/** The text Board.__str__ builds: ten lines, the top one showing row y = 9, each cell
    drawn as its glyph followed by a space, lines separated by a newline. */
module Display {
  import opened Fleet
  import opened Ships
  import opened Cells
  import opened Rules

  /** The first `n` cells of row `y`, each glyph followed by a space. */
  function RowText(cells: map<Pos, CellVal>, y: int, n: nat): string
    requires cells.Keys == Coords && 0 <= y <= 9 && n <= 10
  {
    if n == 0 then "" else RowText(cells, y, n - 1) + [Glyph(cells[(n - 1, y)]), ' ']
  }

  /** The first `n` lines of the board text; line i shows row y = 9 - i and every line
      but the tenth ends with a newline. */
  function Text(cells: map<Pos, CellVal>, n: nat): string
    requires cells.Keys == Coords && n <= 10
  {
    if n == 0 then "" else Text(cells, n - 1) + RowText(cells, 10 - n, 10) + (if n < 10 then "\n" else "")
  }

  lemma {:induction false} RowTextAt(cells: map<Pos, CellVal>, y: int, n: nat)
    requires cells.Keys == Coords && 0 <= y <= 9 && n <= 10
    ensures |RowText(cells, y, n)| == 2 * n
    ensures forall x :: 0 <= x < n ==>
      RowText(cells, y, n)[2 * x] == Glyph(cells[(x, y)]) && RowText(cells, y, n)[2 * x + 1] == ' '
  {
    if n > 0 {
      RowTextAt(cells, y, n - 1);
    }
  }

  /** What the first `n` lines hold: line k starts at 21 * k and shows row 9 - k, cell x
      drawn at column 2x followed by a space, and every line but the tenth ends at
      column 20 with a newline. */
  ghost predicate Laid(cells: map<Pos, CellVal>, t: string, n: nat)
    requires cells.Keys == Coords && n <= 10
  {
    |t| == (if n == 10 then 209 else 21 * n) &&
    (forall k, x {:trigger t[21 * k + 2 * x]} :: 0 <= k < n && 0 <= x < 10 ==>
      t[21 * k + 2 * x] == Glyph(cells[(x, 9 - k)]) && t[21 * k + 2 * x + 1] == ' ') &&
    (forall k {:trigger t[21 * k + 20]} :: 0 <= k < n && k < 9 ==> t[21 * k + 20] == '\n')
  }

  /** Appending one more line keeps every earlier cell and lays the new row after them. */
  lemma CellsStep(cells: map<Pos, CellVal>, n: nat, before: string, row: string, tail: string)
    requires cells.Keys == Coords && 0 < n <= 10
    requires Laid(cells, before, n - 1) && |row| == 20
    requires forall x :: 0 <= x < 10 ==> row[2 * x] == Glyph(cells[(x, 10 - n)]) && row[2 * x + 1] == ' '
    ensures var t := before + row + tail;
      forall k, x {:trigger t[21 * k + 2 * x]} :: 0 <= k < n && 0 <= x < 10 ==>
        t[21 * k + 2 * x] == Glyph(cells[(x, 9 - k)]) && t[21 * k + 2 * x + 1] == ' '
  {
    var t := before + row + tail;
    forall k, x | 0 <= k < n && 0 <= x < 10
      ensures t[21 * k + 2 * x] == Glyph(cells[(x, 9 - k)]) && t[21 * k + 2 * x + 1] == ' '
    {
      if k == n - 1 {
        assert t[21 * k + 2 * x] == row[2 * x];
        assert t[21 * k + 2 * x + 1] == row[2 * x + 1];
      } else {
        assert t[21 * k + 2 * x] == before[21 * k + 2 * x];
        assert t[21 * k + 2 * x + 1] == before[21 * k + 2 * x + 1];
      }
    }
  }

  lemma LaidStep(cells: map<Pos, CellVal>, n: nat)
    requires cells.Keys == Coords && 0 < n <= 10
    requires Laid(cells, Text(cells, n - 1), n - 1)
    ensures Laid(cells, Text(cells, n), n)
  {
    var before, row := Text(cells, n - 1), RowText(cells, 10 - n, 10);
    RowTextAt(cells, 10 - n, 10);
    var t := Text(cells, n);
    assert t == before + row + (if n < 10 then "\n" else "");
    CellsStep(cells, n, before, row, if n < 10 then "\n" else "");
    forall k | 0 <= k < n && k < 9
      ensures t[21 * k + 20] == '\n'
    {
      if k < n - 1 {
        assert t[21 * k + 20] == before[21 * k + 20];
      }
    }
  }

  /** The first `n` lines are laid out as Laid says. */
  lemma {:induction false} TextPrefix(cells: map<Pos, CellVal>, n: nat)
    requires cells.Keys == Coords && n <= 10
    ensures Laid(cells, Text(cells, n), n)
  {
    if n > 0 {
      TextPrefix(cells, n - 1);
      LaidStep(cells, n);
    }
  }

  /** The board text is 209 characters: line k (k = 0 at the top) shows row 9 - k, cell x
      at column 2x followed by a space, and each of the first nine lines ends with a
      newline at column 20. */
  lemma TextLayout(cells: map<Pos, CellVal>)
    requires cells.Keys == Coords
    ensures |Text(cells, 10)| == 209
    ensures forall k, x {:trigger Text(cells, 10)[21 * k + 2 * x]} :: 0 <= k < 10 && 0 <= x < 10 ==>
      Text(cells, 10)[21 * k + 2 * x] == Glyph(cells[(x, 9 - k)]) && Text(cells, 10)[21 * k + 2 * x + 1] == ' '
    ensures forall k {:trigger Text(cells, 10)[21 * k + 20]} :: 0 <= k < 9 ==> Text(cells, 10)[21 * k + 20] == '\n'
  {
    TextPrefix(cells, 10);
    var t := Text(cells, 10);
    forall k, x | 0 <= k < 10 && 0 <= x < 10
      ensures t[21 * k + 2 * x] == Glyph(cells[(x, 9 - k)]) && t[21 * k + 2 * x + 1] == ' '
    {
      assert Laid(cells, t, 10);
    }
  }

  /** One line of a board without ships. */
  const EmptyLine := ". . . . . . . . . . "

  /** On a board without ships every row is drawn as ten dots, each followed by a space. */
  lemma EmptyBoardRows(cells: map<Pos, CellVal>, y: int)
    requires cells.Keys == Coords && 0 <= y <= 9
    requires forall p :: p in cells ==> cells[p].ship == null
    ensures RowText(cells, y, 10) == EmptyLine
  {
    var row := RowText(cells, y, 10);
    RowTextAt(cells, y, 10);
    forall i | 0 <= i < 20
      ensures row[i] == EmptyLine[i]
    {
      var x := i / 2;
      assert (x, y) in cells;
      if i % 2 == 0 {
        assert row[2 * x] == '.';
      } else {
        assert row[2 * x + 1] == ' ';
      }
    }
  }

  /** The board as created draws every row as ten dots. */
  lemma InitialRows(y: int)
    requires 0 <= y <= 9
    ensures Initial.cells.Keys == Coords
    ensures RowText(Initial.cells, y, 10) == EmptyLine
  {
    EmptyBoardRows(Initial.cells, y);
  }
}
