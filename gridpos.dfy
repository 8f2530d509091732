/** One cell of the board: the ship reference it holds, if any, and its guess flags. */
module Cells {
  import opened Fleet
  import opened Ships

  /** The value of a cell's mutable state. */
  datatype CellVal = CellVal(ship: Ship?, guessed: bool, hit: bool)

  const Empty := CellVal(null, false, false)

  /** The character a cell is drawn with: the occupying ship's letter, or '.' when
      no ship is referenced. A hit does not change the glyph. */
  function Glyph(c: CellVal): (g: char)
    ensures g == '.' <==> c.ship == null
    ensures c.ship != null ==> g == Letter(c.ship.kind)
  {
    if c.ship == null then '.' else Letter(c.ship.kind)
  }

  class GridPos {
    const x: int
    const y: int
    var ship: Ship?
    var guessed: bool
    var hit: bool

    constructor (x: int, y: int)
      ensures this.x == x && this.y == y && Val() == Empty
    {
      this.x, this.y := x, y;
      ship := null;
      guessed, hit := false, false;
    }

    function Val(): CellVal
      reads this
    {
      CellVal(ship, guessed, hit)
    }

    method Guess()
      modifies this`guessed
      ensures guessed
    {
      guessed := true;
    }

    method Hit()
      modifies this`hit
      ensures hit
    {
      hit := true;
    }

    method PlaceShip(s: Ship)
      modifies this`ship
      ensures ship == s
    {
      ship := s;
    }

    method RemoveShip()
      modifies this`ship
      ensures ship == null
    {
      ship := null;
    }
  }
}
