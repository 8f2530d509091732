/** One vessel: its kind, the hits it has taken and the cells it occupies. */
module Ships {
  import opened Fleet

  /** A board coordinate as the pair (x, y). */
  type Pos = (int, int)

  class Ship {
    const kind: Kind
    var hits: nat
    var positions: seq<Pos>

    /** The size fixed by the kind. */
    function Size(): nat {
      Fleet.Size(kind)
    }

    constructor (kind: Kind)
      ensures this.kind == kind && hits == 0 && positions == []
    {
      this.kind := kind;
      hits := 0;
      positions := [];
    }

    /** Records one more hit and tells whether the ship is now sunk. */
    method Hit() returns (sunk: bool)
      modifies this`hits
      ensures hits == old(hits) + 1
      ensures sunk <==> hits == Size()
    {
      hits := hits + 1;
      sunk := hits == Size();
    }

    /** Appends a cell the ship occupies; no bounds check is made here. */
    method AddPosition(x: int, y: int)
      modifies this`positions
      ensures positions == old(positions) + [(x, y)]
    {
      positions := positions + [(x, y)];
    }
  }
}
