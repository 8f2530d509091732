/** The game board: a 10-by-10 grid of cells, the kinds not yet sunk, the number of
    ships placed per kind, and the lines printed so far. A ghost value `model` of type
    Rules.View follows the grid; every method is proved to change it exactly as the
    corresponding function of module Rules says, and to keep Rules.WellFormed. */
module Game {
  import opened Wrappers
  import opened Fleet
  import opened Ships
  import opened Cells
  import opened Rules
  import opened Display

  class Board {
    /** The rows of cells, indexed as grid[y][x]; the lists are filled once, and only
        the cells in them change afterwards. */
    const grid: seq<seq<GridPos>>
    /** The kinds not yet sunk. */
    var surviving: set<Kind>
    /** How many ships of each kind were placed. */
    var counts: map<Kind, nat>
    /** Every line printed so far, in order. */
    var output: seq<string>
    /** The cell objects of the grid. */
    ghost const Repr: set<GridPos>
    /** The board's state as a value: cells, ships placed with their hits, kinds afloat. */
    ghost var model: View

    /** The grid is 10 rows of 10, the cell at grid[y][x] is in Repr and knows its
        coordinates (x, y), and every cell of Repr is the one at its coordinates. */
    ghost predicate Shape() {
      |grid| == 10 && (forall y :: 0 <= y < 10 ==> |grid[y]| == 10) &&
      (forall y, x :: 0 <= y < 10 && 0 <= x < 10 ==>
        grid[y][x] in Repr && grid[y][x].x == x && grid[y][x].y == y) &&
      forall c :: c in Repr ==> OnBoard(c.x, c.y) && grid[c.y][c.x] == c
    }

    /** Every cell holds the value the model gives its position. */
    ghost predicate Coupled()
      reads this`model, Repr
    {
      model.cells.Keys == Coords &&
      forall c :: c in Repr ==> (c.x, c.y) in model.cells && model.cells[(c.x, c.y)] == CellVal(c.ship, c.guessed, c.hit)
    }

    /** Every placed ship has the hit count the model gives it. */
    ghost predicate HitsMatch()
      reads this`model, model.hits.Keys`hits
    {
      forall s :: s in model.hits ==> s.hits == model.hits[s]
    }

    ghost predicate Valid()
      reads this`model, this`surviving, Repr, model.hits.Keys`hits
    {
      Shape() && Coupled() && HitsMatch() && surviving == model.surviving && WellFormed(model)
    }

    /** Since `old`, every cell other than `cell` holds the value it held. */
    twostate predicate OthersKept(cell: GridPos)
      reads Repr
    {
      forall c :: c in Repr && c != cell ==> c.ship == old(c.ship) && c.guessed == old(c.guessed) && c.hit == old(c.hit)
    }

    /** When, of the grid's cells, only `cell` changed since `old` and the model records
        its new value, cells and model still agree. */
    twostate lemma Recouple(cell: GridPos)
      requires Shape() && cell in Repr && old(Coupled()) && OthersKept(cell)
      requires model.cells == old(model.cells)[(cell.x, cell.y) := cell.Val()]
      ensures Coupled()
    {
      forall c | c in Repr
        ensures (c.x, c.y) in model.cells && model.cells[(c.x, c.y)] == CellVal(c.ship, c.guessed, c.hit)
      {
        if c != cell {
          assert (c.x, c.y) != (cell.x, cell.y);
        }
      }
    }

    /** A first guess on an empty cell, once recorded in cell and model, leaves the board
        valid. */
    twostate lemma MissRecorded(cell: GridPos)
      requires old(Valid()) && Shape() && cell in Repr && OthersKept(cell)
      requires surviving == old(surviving) && HitsMatch()
      requires old(cell.ship) == null && cell.Val() == old(cell.Val()).(guessed := true)
      requires model == MarkGuessed(old(model), (cell.x, cell.y))
      ensures Valid()
    {
      MarkGuessedWellFormed(old(model), (cell.x, cell.y));
      Recouple(cell);
    }

    /** A first guess on a ship cell, once recorded in cell, ship and model, leaves the
        board valid. */
    twostate lemma HitRecorded(cell: GridPos)
      requires old(Valid()) && Shape() && cell in Repr && OthersKept(cell)
      requires surviving == old(surviving) && HitsMatch()
      requires old(cell.ship) != null && !old(cell.guessed)
      requires cell.Val() == old(cell.Val()).(guessed := true, hit := true)
      requires model == Struck(old(model), (cell.x, cell.y))
      ensures Valid()
    {
      StruckWellFormed(old(model), (cell.x, cell.y));
      Recouple(cell);
    }

    /** Clearing a cell's ship reference and shrinking the surviving set, once recorded
        in cell and model, leaves the board valid. */
    twostate lemma SinkRecorded(cell: GridPos)
      requires old(Valid()) && Shape() && cell in Repr && OthersKept(cell)
      requires HitsMatch()
      requires cell.Val() == old(cell.Val()).(ship := null)
      requires model == Cleared(old(model), (cell.x, cell.y)).(surviving := surviving)
      ensures Valid()
    {
      ClearedWellFormed(old(model), (cell.x, cell.y));
      SurvivingIrrelevant(Cleared(old(model), (cell.x, cell.y)), surviving);
      Recouple(cell);
    }

    /** A board with every cell empty and unguessed, all five kinds afloat, no ship
        counted and nothing printed. */
    constructor ()
      ensures Valid() && fresh(Repr)
      ensures model == Initial && surviving == AllKinds && counts == NoShips && output == []
    {
      var rows: seq<seq<GridPos>> := [];
      ghost var made: set<GridPos> := {};
      for y := 0 to 10
        invariant |rows| == y && forall j :: 0 <= j < y ==> |rows[j]| == 10
        invariant forall j, x :: 0 <= j < y && 0 <= x < 10 ==>
          rows[j][x] in made && rows[j][x].x == x && rows[j][x].y == j
        invariant forall c :: c in made ==> fresh(c) && c.Val() == Empty
      {
        var row: seq<GridPos> := [];
        for x := 0 to 10
          invariant |row| == x
          invariant forall i :: 0 <= i < x ==> row[i] in made && row[i].x == i && row[i].y == y
          invariant forall j, i :: 0 <= j < y && 0 <= i < 10 ==> rows[j][i] in made
          invariant forall c :: c in made ==> fresh(c) && c.Val() == Empty
        {
          var c := new GridPos(x, y);
          row := row + [c];
          made := made + {c};
        }
        rows := rows + [row];
      }
      grid := rows;
      Repr := set j, i | 0 <= j < 10 && 0 <= i < 10 :: rows[j][i];
      model := Initial;
      surviving := AllKinds;
      counts := NoShips;
      output := [];
      new;
      InitialWellFormed();
    }

    /** The cell at column x of row y. */
    method GetCell(x: int, y: int) returns (cell: GridPos)
      requires Valid() && OnBoard(x, y)
      ensures cell in Repr && cell.x == x && cell.y == y
      ensures cell.Val() == model.cells[(x, y)]
    {
      cell := grid[y][x];
    }

    /** process_miss: the first guess on an empty cell prints "miss" and marks it
        guessed; a repeated one prints "miss (again)". */
    method ProcessMiss(cell: GridPos) returns (o: Outcome)
      requires Valid() && cell in Repr && cell.ship == null
      modifies this`output, this`model, cell`guessed
      ensures var r := Miss(old(model), (cell.x, cell.y));
        model == r.view && output == old(output) + r.lines && o == r.outcome
      ensures Valid()
    {
      if cell.guessed {
        output := output + ["miss (again)"];
      } else {
        output := output + ["miss"];
        cell.Guess();
        model := MarkGuessed(model, (cell.x, cell.y));
        MissRecorded(cell);
      }
      o := Continue;
    }

    /** process_hit: the first guess on a ship cell marks it guessed and hit and adds a
        hit to the ship, which either sinks it or prints "hit"; a repeated guess prints
        "hit (again)". */
    method ProcessHit(cell: GridPos) returns (o: Outcome)
      requires Valid() && cell in Repr && cell.ship != null
      modifies this`output, this`surviving, this`model, cell, cell.ship`hits
      ensures var r := Strike(old(model), (cell.x, cell.y));
        model == r.view && output == old(output) + r.lines && o == r.outcome
      ensures Valid()
    {
      var ship := cell.ship;
      ghost var v, p := model, (cell.x, cell.y);
      if cell.guessed {
        output := output + ["hit (again)"];
        o := Continue;
      } else {
        assert v.cells[p].ship == ship && v.hits[ship] == ship.hits;
        cell.Guess();
        cell.Hit();
        var sunk := ship.Hit();
        if !sunk {
          output := output + ["hit"];
        }
        model := Struck(model, p);
        HitRecorded(cell);
        if sunk {
          o := ProcessSunk(ship, cell);
        } else {
          o := Continue;
        }
      }
    }

    /** process_sunk: prints that the kind is sunk, clears the ship reference of this one
        cell and removes the kind from the surviving set, which raises KeyError when the
        kind is already gone; an empty set ends the game. */
    method ProcessSunk(ship: Ship, cell: GridPos) returns (o: Outcome)
      requires Valid() && cell in Repr
      modifies this`output, this`surviving, this`model, cell`ship
      ensures var r := Sink(old(model), (cell.x, cell.y), ship);
        model == r.view && output == old(output) + r.lines && o == r.outcome
      ensures Valid()
    {
      output := output + [SunkLine(ship.kind)];
      cell.RemoveShip();
      // set.remove raises KeyError for a missing element and otherwise removes it
      var present := ship.kind in surviving;
      surviving := surviving - {ship.kind};
      if present && surviving == {} {
        output := output + [GameOverLine];
      }
      o := if !present then Raised("KeyError") else if surviving == {} then GameOver else Continue;
      model := Cleared(model, (cell.x, cell.y)).(surviving := surviving);
      SinkRecorded(cell);
    }

    /** process_guess: the cell at (x, y) is resolved as a miss or as a hit. */
    method ProcessGuess(x: int, y: int) returns (o: Outcome)
      requires Valid() && OnBoard(x, y)
      modifies this`output, this`surviving, this`model, Repr, model.hits.Keys`hits
      ensures var r := Resolve(old(model), x, y);
        model == r.view && output == old(output) + r.lines && o == r.outcome
      ensures Valid()
    {
      var cell := GetCell(x, y);
      if cell.ship == null {
        o := ProcessMiss(cell);
      } else {
        o := ProcessHit(cell);
      }
    }

    /** check_guess for a parsed guess: only the upper bound is checked, so a guess past
        row or column 9 prints "illegal guess" and anything else is resolved. */
    method CheckGuess(x: int, y: int) returns (o: Outcome)
      requires Valid() && Indexable(x, y)
      modifies this`output, this`surviving, this`model, Repr, model.hits.Keys`hits
      ensures var r := Guess(old(model), x, y);
        model == r.view && output == old(output) + r.lines && o == r.outcome
      ensures Valid()
    {
      if x <= 9 && y <= 9 {
        o := ProcessGuess(x, y);
      } else {
        output := output + ["illegal guess"];
        o := Continue;
      }
    }

    /** validate_coordinates: an end off the board is reported first, then two ends that
        share neither column nor row; a reported error ends the game. */
    method ValidateCoordinates(x1: int, y1: int, x2: int, y2: int, line: string) returns (o: Outcome)
      modifies this`output
      ensures o == Continue <==> CoordinateError(x1, y1, x2, y2).None?
      ensures match CoordinateError(x1, y1, x2, y2)
        case None => o == Continue && output == old(output)
        case Some(e) => o == Fatal(ErrorLine(e, line)) && output == old(output) + [ErrorLine(e, line)]
    {
      if x1 < 0 || x1 > 9 || y1 < 0 || y1 > 9 || x2 < 0 || x2 > 9 || y2 < 0 || y2 > 9 {
        output := output + [ErrorLine(OutOfBounds, line)];
        return Fatal(ErrorLine(OutOfBounds, line));
      }
      if x1 != x2 && y1 != y2 {
        output := output + [ErrorLine(NotStraight, line)];
        return Fatal(ErrorLine(NotStraight, line));
      }
      o := Continue;
    }

    /** validate_ship_size: the span between the ends must match the ship's size. */
    method ValidateShipSize(x1: int, y1: int, x2: int, y2: int, ship: Ship, line: string) returns (o: Outcome)
      modifies this`output
      ensures SizeMismatch(x1, y1, x2, y2, ship.Size()) ==>
        o == Fatal(ErrorLine(WrongSize, line)) && output == old(output) + [ErrorLine(WrongSize, line)]
      ensures !SizeMismatch(x1, y1, x2, y2, ship.Size()) ==> o == Continue && output == old(output)
      ensures o == Continue <==> !SizeMismatch(x1, y1, x2, y2, ship.Size())
    {
      if (x1 == x2 && Max(y1 - y2, y2 - y1) + 1 != ship.Size()) || (y1 == y2 && Max(x1 - x2, x2 - x1) + 1 != ship.Size()) {
        output := output + [ErrorLine(WrongSize, line)];
        return Fatal(ErrorLine(WrongSize, line));
      }
      o := Continue;
    }

    /** check_fleet_composition: exactly five ships must have been placed. */
    method CheckFleetComposition() returns (o: Outcome)
      requires AllKinds <= counts.Keys
      modifies this`output
      ensures FleetComplete(counts) ==> o == Continue && output == old(output)
      ensures !FleetComplete(counts) ==> o == Fatal(FleetErrorLine) && output == old(output) + [FleetErrorLine]
    {
      if counts[A] + counts[B] + counts[S] + counts[D] + counts[P] != 5 {
        output := output + [FleetErrorLine];
        return Fatal(FleetErrorLine);
      }
      o := Continue;
    }

    /** The walk of place_ship_on_board: from the lower end of the segment to the higher
        one, each cell is referred to the ship and recorded as the ship's position, until a
        cell that already holds a ship prints the overlap error and ends the game. `k`
        cells are taken. */
    method Walk(x1: int, y1: int, x2: int, y2: int, ship: Ship, line: string) returns (k: int, o: Outcome)
      requires Shape() && OnBoard(x1, y1) && OnBoard(x2, y2) && (x1 == x2 || y1 == y2)
      requires ship.positions == []
      modifies this`output, Repr, ship`positions
      ensures Took(ship, x1, y1, x2, y2, k)
      ensures k == Span(x1, y1, x2, y2) ==> o == Continue && output == old(output)
      ensures k < Span(x1, y1, x2, y2) ==>
        o == Fatal(ErrorLine(Overlapping, line)) && output == old(output) + [ErrorLine(Overlapping, line)]
    {
      // a vertical ship runs up its column, any other along its row
      var vertical := x1 == x2;
      var lo, hi := if vertical then Min(y1, y2) else Min(x1, x2), if vertical then Max(y1, y2) else Max(x1, x2);
      var blocked := false;
      k := hi - lo + 1;
      for i := lo to hi + 1
        invariant |ship.positions| == i - lo
        invariant forall j :: 0 <= j < i - lo ==> ship.positions[j] == At(x1, y1, x2, y2, j)
        invariant Covered(ship, x1, y1, x2, y2, i - lo)
        invariant !blocked
        modifies Repr, ship`positions
      {
        var x, y := if vertical then x1 else i, if vertical then i else y1;
        assert (x, y) == At(x1, y1, x2, y2, i - lo);
        var cell := grid[y][x];
        if cell.ship != null {
          k, blocked := i - lo, true;
          break;
        }
        cell.PlaceShip(ship);
        ship.AddPosition(x, y);
        forall c | c in Repr
          ensures InSpan(x1, y1, x2, y2, i - lo + 1, (c.x, c.y)) <==> InSpan(x1, y1, x2, y2, i - lo, (c.x, c.y)) || c == cell
        {
          SpanStep(x1, y1, x2, y2, i - lo, (c.x, c.y));
        }
      }
      if blocked {
        output := output + [ErrorLine(Overlapping, line)];
        o := Fatal(ErrorLine(Overlapping, line));
      } else {
        o := Continue;
      }
    }

    /** place_ship_on_board: the walk above; the cells walked before an overlap keep
        the new ship. */
    method PlaceShipOnBoard(x1: int, y1: int, x2: int, y2: int, ship: Ship, line: string) returns (o: Outcome)
      requires Valid() && OnBoard(x1, y1) && OnBoard(x2, y2) && (x1 == x2 || y1 == y2)
      requires !SizeMismatch(x1, y1, x2, y2, ship.Size())
      requires ship !in model.hits && ship.hits == 0 && ship.positions == []
      modifies this`output, this`model, Repr, ship`positions
      ensures var seg := Segment(x1, y1, x2, y2);
        var k := FirstTaken(old(model), seg);
        ship.positions == seg[..k] && model == Occupy(old(model), ship, Prefix(seg, k)) &&
        (k == |seg| ==> o == Continue && output == old(output)) &&
        (k < |seg| ==> o == Fatal(ErrorLine(Overlapping, line)) && output == old(output) + [ErrorLine(Overlapping, line)])
      ensures Valid()
    {
      var k;
      k, o := Walk(x1, y1, x2, y2, ship, line);
      model := Occupy(model, ship, Prefix(Segment(x1, y1, x2, y2), k));
      Placed(ship, x1, y1, x2, y2, k);
    }

    /** Since `old`, the first `k` cells of the segment between the two ends, all empty
        before, have come to refer to `ship`, and nothing else about any cell has changed. */
    twostate predicate Covered(new ship: Ship, x1: int, y1: int, x2: int, y2: int, k: int)
      reads Repr
    {
      forall c :: c in Repr ==>
        c.guessed == old(c.guessed) && c.hit == old(c.hit) &&
        if InSpan(x1, y1, x2, y2, k, (c.x, c.y)) then old(c.ship) == null && c.ship == ship else c.ship == old(c.ship)
    }

    /** Since `old`, the walk has taken the first `k` cells of the segment: they were
        vacant, the next one (if any) was not, the ship records them in order, and they
        alone have come to refer to it. */
    twostate predicate Took(new ship: Ship, x1: int, y1: int, x2: int, y2: int, k: int)
      reads Repr, ship
    {
      0 <= k <= Span(x1, y1, x2, y2) && |ship.positions| == k &&
      (forall j :: 0 <= j < k ==> ship.positions[j] == At(x1, y1, x2, y2, j)) &&
      (k < Span(x1, y1, x2, y2) ==>
        exists c :: c in Repr && (c.x, c.y) == At(x1, y1, x2, y2, k) && old(c.ship) != null) &&
      Covered(ship, x1, y1, x2, y2, k)
    }

    /** A walk that covered the first `k` cells of the segment, all empty before, and
        then reached the end or met a taken cell, stopped where FirstTaken stops on the
        model, and the ship's positions are those cells in order. */
    twostate lemma Stopped(new ship: Ship, new x1: int, new y1: int, new x2: int, new y2: int, new k: int)
      requires old(Coupled()) && Shape()
      requires OnBoard(x1, y1) && OnBoard(x2, y2) && (x1 == x2 || y1 == y2)
      requires Took(ship, x1, y1, x2, y2, k)
      ensures FirstTaken(old(model), Segment(x1, y1, x2, y2)) == k
      ensures forall p :: p in Prefix(Segment(x1, y1, x2, y2), k) <==> InSpan(x1, y1, x2, y2, k, p)
      ensures ship.positions == Segment(x1, y1, x2, y2)[..k]
    {
      var v0 := old(model);
      forall j | 0 <= j < k
        ensures At(x1, y1, x2, y2, j) in v0.cells && v0.cells[At(x1, y1, x2, y2, j)].ship == null
      {
        var p := At(x1, y1, x2, y2, j);
        assert grid[p.1][p.0] in Repr;
      }
      if k < Span(x1, y1, x2, y2) {
        var c :| c in Repr && (c.x, c.y) == At(x1, y1, x2, y2, k) && old(c.ship) != null;
      }
      Walked(v0, x1, y1, x2, y2, k);
      PrefixOf(ship.positions, x1, y1, x2, y2, k);
    }

    /** The walk, once recorded in the model as the ship occupying the cells it took,
        leaves a valid board. */
    twostate lemma Placed(new ship: Ship, new x1: int, new y1: int, new x2: int, new y2: int, new k: int)
      requires old(Valid()) && Shape()
      requires surviving == old(surviving)
      requires OnBoard(x1, y1) && OnBoard(x2, y2) && (x1 == x2 || y1 == y2)
      requires Span(x1, y1, x2, y2) <= ship.Size()
      requires ship !in old(model).hits && ship.hits == 0
      requires forall s :: s in old(model).hits ==> s.hits == old(s.hits)
      requires Took(ship, x1, y1, x2, y2, k)
      requires model == Occupy(old(model), ship, Prefix(Segment(x1, y1, x2, y2), k))
      ensures Valid()
      ensures FirstTaken(old(model), Segment(x1, y1, x2, y2)) == k
      ensures ship.positions == Segment(x1, y1, x2, y2)[..k]
    {
      var v0, seg := old(model), Segment(x1, y1, x2, y2);
      Stopped(ship, x1, y1, x2, y2, k);
      forall c | c in Repr
        ensures (c.x, c.y) in model.cells && model.cells[(c.x, c.y)] == CellVal(c.ship, c.guessed, c.hit)
      {
        assert (c.x, c.y) in v0.cells;
      }
      OccupyWellFormed(v0, ship, Prefix(seg, k), seg);
    }

    /** One more ship of kind `kind` in the fleet. */
    method CountShip(kind: Kind)
      requires kind in counts
      modifies this`counts
      ensures counts == old(counts)[kind := old(counts)[kind] + 1]
    {
      counts := counts[kind := counts[kind] + 1];
    }

    /** The end of place_one_ship, once both checks have passed: the ship goes on the
        board and, unless it overlapped, the tally of its kind grows by one. */
    method PlaceChecked(ship: Ship, x1: int, y1: int, x2: int, y2: int, line: string) returns (o: Outcome)
      requires Valid() && counts.Keys == AllKinds
      requires CoordinateError(x1, y1, x2, y2).None? && !SizeMismatch(x1, y1, x2, y2, ship.Size())
      requires ship !in model.hits && ship.hits == 0 && ship.positions == []
      modifies this`output, this`model, this`counts, Repr, ship`positions
      ensures var seg := Segment(x1, y1, x2, y2);
        var k := FirstTaken(old(model), seg);
        ship.positions == seg[..k] && model == Occupy(old(model), ship, Prefix(seg, k)) &&
        (k == |seg| ==>
          o == Continue && output == old(output) && counts == old(counts)[ship.kind := old(counts)[ship.kind] + 1]) &&
        (k < |seg| ==>
          o == Fatal(ErrorLine(Overlapping, line)) && output == old(output) + [ErrorLine(Overlapping, line)] &&
          counts == old(counts))
      ensures Valid()
    {
      o := PlaceShipOnBoard(x1, y1, x2, y2, ship, line);
      if o == Continue {
        CountShip(ship.kind);
      }
    }

    /** place_one_ship for a parsed line: a new ship of `kind` goes through the
        coordinate checks, the size check and the placement, and on success the tally
        of its kind grows by one. The first failed check prints its error and ends the
        game; only an overlap has changed cells by then. */
    method PlaceOneShip(kind: Kind, x1: int, y1: int, x2: int, y2: int, line: string) returns (o: Outcome, ghost ship: Ship)
      requires Valid() && counts.Keys == AllKinds
      modifies this`output, this`model, this`counts, Repr
      ensures fresh(ship) && ship.kind == kind && surviving == old(surviving)
      ensures CoordinateError(x1, y1, x2, y2).Some? ==>
        var e := CoordinateError(x1, y1, x2, y2).value;
        o == Fatal(ErrorLine(e, line)) && output == old(output) + [ErrorLine(e, line)] &&
        model == old(model) && counts == old(counts)
      ensures CoordinateError(x1, y1, x2, y2).None? && SizeMismatch(x1, y1, x2, y2, Size(kind)) ==>
        o == Fatal(ErrorLine(WrongSize, line)) && output == old(output) + [ErrorLine(WrongSize, line)] &&
        model == old(model) && counts == old(counts)
      ensures CoordinateError(x1, y1, x2, y2).None? && !SizeMismatch(x1, y1, x2, y2, Size(kind)) ==>
        var seg := Segment(x1, y1, x2, y2);
        var k := FirstTaken(old(model), seg);
        ship.positions == seg[..k] && model == Occupy(old(model), ship, Prefix(seg, k)) &&
        (k == |seg| ==> o == Continue && output == old(output) && counts == old(counts)[kind := old(counts)[kind] + 1]) &&
        (k < |seg| ==>
          o == Fatal(ErrorLine(Overlapping, line)) && output == old(output) + [ErrorLine(Overlapping, line)] &&
          counts == old(counts))
      ensures Valid()
    {
      var s := new Ship(kind);
      ship := s;
      o := ValidateCoordinates(x1, y1, x2, y2, line);
      if o == Continue {
        o := ValidateShipSize(x1, y1, x2, y2, s, line);
        if o == Continue {
          o := PlaceChecked(s, x1, y1, x2, y2, line);
        }
      }
    }

    /** The text of row `y` in __str__: each cell's glyph followed by a space. */
    method RenderRow(y: int) returns (text: string)
      requires Shape() && Coupled() && 0 <= y <= 9
      ensures text == RowText(model.cells, y, 10)
    {
      text := "";
      for x := 0 to 10
        invariant text == RowText(model.cells, y, x)
      {
        text := text + [Glyph(grid[y][x].Val())];
        text := text + " ";
      }
    }

    /** __str__: the rows from y = 9 down to y = 0, every cell's glyph followed by a space,
        the rows separated by newlines. */
    method Render() returns (text: string)
      requires Shape() && Coupled()
      ensures text == Text(model.cells, 10)
    {
      text := "";
      for k := 0 to 10
        invariant text == Text(model.cells, k)
      {
        var row := RenderRow(9 - k);
        text := text + row;
        if k < 9 {
          text := text + "\n";
        }
      }
    }
  }
}
