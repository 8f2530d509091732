# Battleship game-state engine

A model of the game-state engine of `battleship.py`, a single-player Battleship
referee. It covers the three classes of that program:

- `Ship` holds a kind, the fixed size of that kind, a hit count and the cells the ship
  occupies.
- `GridPos` is one cell of the board. It holds an optional ship reference and two
  flags, guessed and hit.
- `Board` is a 10-by-10 grid of cells. It also keeps the set of kinds not yet sunk and
  a per-kind tally of the ships placed.

The board validates and places ships, checks the fleet count, resolves guesses and
renders itself as text.

The model is imperative where the program is:

- `Ships.Ship`, `Cells.GridPos` and `Game.Board` are classes whose methods update their
  fields in place.
- The grid is a constant sequence of rows of `GridPos` objects, indexed `grid[y][x]` as
  `get_cell` does. The program builds its list of rows once and only changes the cells
  afterwards.
- Each `print` appends a line to the board's `output` field.
- Each `sys.exit(0)` becomes an `Outcome`: `Continue`, `Fatal(message)` for a rejected
  placement or fleet, or `GameOver` once the last kind is sunk.
- Python's `KeyError` from removing a kind that is already gone becomes
  `Raised("KeyError")`.

Module `Rules` states the game over a value, `View`. A `View` holds:

- every cell's ship reference and flags;
- the hit count of every placed ship;
- the surviving kinds.

`Game.Board` keeps a ghost `model` of that type. Every method that starts from a valid
board is proved to change the cells, the ships' hits, the surviving set and the output
exactly as the matching `Rules` function says. The one exception is `Game.Board.Walk`,
the cell-by-cell loop of a placement, which is stated through the board's own cells;
`Game.Board.PlaceShipOnBoard` ties it to `Rules.Occupy`. The per-kind tally is stated
directly in the placement methods: it grows by one for the placed kind exactly when the
ship was placed without overlap, which is one step of `Rules.Tally`
(`Rules.TallyAppend`). Every such method also keeps `Rules.WellFormed`, the invariant
that a ship's hits plus its unguessed cells never exceed its size. Hence no ship is ever
hit more often than its size.

The quirks of the program are kept as written:

- Sinking a ship clears the ship reference of only the cell that sank it.
- The fleet check counts ships, not distinct kinds.
- The guess check tests only the upper bound of the coordinates.
- A placement that overlaps another ship part-way leaves the cells before the taken one
  referring to the new ship, and records them as its positions.

Where the documented behaviour and the code differ, the model follows the code:

- Guessing again the cell that sank a ship reports `miss (again)`, not `hit (again)`,
  because sinking cleared that cell's ship reference (`Rules.SinkingCellReadsAsMiss`).
- Every rendered row ends with a space, since each glyph is followed by one.
- Once the fleet check has let two ships of one kind through, sinking the second of
  them raises `KeyError`. The model reports that as `Raised("KeyError")`.

Files:

- `wrappers.dfy`: Option and Result.
- `fleet.dfy`: kinds, sizes and letters.
- `ship.dfy`: class Ship.
- `gridpos.dfy`: class GridPos and the glyph of a cell.
- `rules.dfy`: the game as functions on `View`, with their lemmas.
- `display.dfy`: the text of `__str__`.
- `board.dfy`: class Board.

## Model

| member | source | states |
|---|---|---|
| Fleet.Size | battleship.py:422-431 | every kind's size lies between 2 and 5, and only the carrier has 5 |
| Fleet.Letter | battleship.py:477-486 | a ship is drawn with a letter that is neither the empty-cell dot nor a space |
| Fleet.LetterInjective | battleship.py:477-486 | distinct kinds are drawn and reported with distinct letters |
| Ships.Ship.constructor | battleship.py:410-431 | a new ship has the given kind, no hits and no positions |
| Ships.Ship.Hit | battleship.py:432-445 | hits grow by exactly one, and the result is true exactly when hits now equal the size |
| Ships.Ship.AddPosition | battleship.py:446-456 | the cell is appended to the positions and nothing else changes |
| Cells.Glyph | battleship.py:85-97 | a cell is drawn as '.' exactly when it references no ship, and otherwise with its ship's letter |
| Cells.GridPos.constructor | battleship.py:29-44 | a new cell has no ship and is neither guessed nor hit |
| Cells.GridPos.Guess | battleship.py:45-54 | the cell becomes guessed and nothing else changes |
| Cells.GridPos.Hit | battleship.py:65-74 | the cell becomes hit and nothing else changes |
| Cells.GridPos.PlaceShip | battleship.py:108-117 | the cell references the given ship and nothing else changes |
| Cells.GridPos.RemoveShip | battleship.py:118-127 | the cell references no ship and nothing else changes |
| Rules.InitialWellFormed | battleship.py:145-161 | the initial board, all cells empty and unguessed, satisfies the hits-within-size invariant and draws every cell as '.' |
| Rules.HitsWithinSize | battleship.py:442-445 | on a board satisfying the invariant no ship has more hits than its size, and a ship whose hits equal its size has no unguessed cell left |
| Rules.CoordinateError | battleship.py:176-182 | out of bounds is reported exactly when an end is off the board; not straight exactly when both ends are on the board but share neither column nor row; no error exactly otherwise |
| Rules.SizeMismatch | battleship.py:198-199 | for two ends in one column or row the size check fails exactly when the number of cells between them, both included, differs from the size; for a single cell it fails exactly when the size is not 1 |
| Rules.SegmentShape | battleship.py:198-199 | the cells between two ends run from one end to the other one step at a time in ascending order, and the size check fails exactly when their number differs from the size |
| Rules.SegmentOnBoard | battleship.py:233-251 | every cell between two ends on the board is on the board |
| Rules.SegmentDistinct | battleship.py:233-251 | the cells between two ends are pairwise different |
| Rules.FirstTaken | battleship.py:233-237 | the number of cells the walk takes: all of them are vacant, and the next one, if any, holds a ship |
| Rules.FirstTakenAt | battleship.py:233-237 | a vacant prefix followed by a taken cell or by the end is exactly where the walk stops, and it reaches the end exactly when every cell is vacant |
| Rules.Walked | battleship.py:229-251 | a walk that found the first k cells vacant and then met a taken cell or the end stops at k, and the cells it covered are the first k of the segment |
| Rules.Place | battleship.py:252-273 | the all-or-nothing decision of place_one_ship without its tally: on success only the cells change, the new ship is known with no hits, the surviving set is kept and no cell already holding a ship is touched; on overlap it returns no board, unlike the cell-by-cell walk that Game.Board.Walk models, which leaves the cells before the taken one occupied |
| Rules.PlaceRejects | battleship.py:176-201 | an end off the board is rejected as out of bounds before anything else; ends on the board sharing neither row nor column are rejected as not straight; a straight placement is rejected as the wrong size exactly when its length differs from the size, so a single cell is always rejected |
| Rules.PlaceSucceeds | battleship.py:229-251 | a successful placement references the new ship from exactly the cells of its segment, whose number is the kind's size; every other cell and every other ship's hits stay as they were; the invariant is kept |
| Rules.PlaceWalk | battleship.py:229-251 | placing cell by cell occupies the whole segment exactly when placement succeeds, and otherwise placement reports the overlap |
| Rules.PlaceOverlapping | battleship.py:235-237 | once a ship is placed, any second ship whose segment shares a cell with it is rejected as overlapping |
| Rules.OccupyWellFormed | battleship.py:229-251 | occupying vacant cells of a segment no longer than the new ship keeps the invariant, whether the walk completed or was cut short by an overlap |
| Rules.OccupyNothing | battleship.py:235-237 | an overlap at the first cell of the walk changes no cell |
| Rules.Tally | battleship.py:154-155 | the tally after any run of placements has an entry for each of the five kinds |
| Rules.TallyAppend | battleship.py:274 | counting one more successful placement of a kind is one more step of Rules.Tally: that kind's entry grows by one |
| Rules.FleetComplete | battleship.py:211 | a fleet that passes the check has at most five ships of any kind, and the empty tally never passes |
| Rules.TotalBump | battleship.py:274 | one more ship of a kind adds exactly one to the total of the tally |
| Rules.TallyCounts | battleship.py:211-213 | each kind's tally is the number of its successful placements, and the fleet check passes exactly when five ships were placed |
| Rules.FleetCheckIgnoresKinds | battleship.py:211 | a fleet of two carriers and no patrol boat passes the fleet check |
| Rules.Guess | battleship.py:349-366 | a guess keeps every cell present and every ship referenced by a cell known, and adds no ship and removes none |
| Rules.AfloatFrame | battleship.py:300-306 | changing one cell leaves every ship's unguessed cells elsewhere as they were |
| Rules.MarkGuessedWellFormed | battleship.py:300-306 | marking an empty cell as guessed keeps the invariant |
| Rules.StruckWellFormed | battleship.py:322-326 | recording a hit on an unguessed ship cell keeps the invariant and leaves that ship's hits within its size |
| Rules.ClearedWellFormed | battleship.py:342 | clearing a cell's ship reference keeps the invariant |
| Rules.SurvivingIrrelevant | battleship.py:343 | changing the surviving set keeps the invariant |
| Rules.GuessWellFormed | battleship.py:319-329 | every guess keeps the invariant, so hits never exceed a ship's size |
| Rules.IllegalGuess | battleship.py:362-365 | a guess with x or y above 9 reports "illegal guess" and changes nothing |
| Rules.FirstMiss | battleship.py:300-306 | a first guess on an empty cell reports "miss", sets only that cell's guessed flag, never sets hit and changes no hit count |
| Rules.RepeatedGuess | battleship.py:300-302 | a guess on a guessed cell changes nothing and reports "miss (again)" when the cell references no ship, "hit (again)" otherwise |
| Rules.FirstHit | battleship.py:319-329 | a first guess on a ship cell marks it guessed and hit, adds exactly one hit to its ship and changes no other cell; below the size it reports "hit" and keeps the ship reference |
| Rules.SinkingHit | battleship.py:341-347 | the hit that brings hits to the size reports "<kind> sunk", clears that cell's ship reference while every other cell keeps its value, sets the ship's hits to its size and removes the kind; game over is reported exactly when no kind is left; a kind already removed raises KeyError |
| Rules.Play | battleship.py:549-552 | a run of guesses keeps every cell present and every referenced ship known |
| Rules.PlayWellFormed | battleship.py:549-552 | a run of guesses keeps the invariant |
| Rules.StopsAtGameOver | battleship.py:345-347 | once a guess ends the game no later guess is resolved, and the last line printed is the game-over line |
| Rules.StopsForGood | battleship.py:345-347 | once a run of guesses has stopped, at whatever position and whether by game over or by a raised KeyError, further guesses are never resolved: the longer run prints and changes nothing more |
| Rules.HitsUntilSunk | battleship.py:319-347 | hitting a ship on as many distinct unguessed cells as it has hits left reports "hit" for all but the last and "<kind> sunk" for the last, removes the kind, and ends the game exactly when it was the last kind |
| Rules.LastHit | battleship.py:326-327 | the guess on the last unguessed cell of a ship one hit from its size sinks it |
| Rules.MoreHits | battleship.py:323-329 | a hit on a ship more than one hit from its size reports "hit" and leaves it one unguessed cell fewer |
| Rules.EmptyGuessedStays | battleship.py:300-306 | a guessed cell without a ship stays guessed and without a ship through any run of guesses |
| Rules.MissThenMissAgain | battleship.py:300-306 | a cell without a ship reports "miss" the first time and "miss (again)" at every later guess, whatever was guessed in between |
| Rules.SinkingCellReadsAsMiss | battleship.py:342 | the cell that sank a ship reports "miss (again)" when guessed later, because its ship reference was cleared |
| Display.RowTextAt | battleship.py:390-391 | a row's text has two characters per cell: the cell's glyph, then a space |
| Display.TextPrefix | battleship.py:387-393 | the first n lines of the board text are laid out with line k showing row 9 - k |
| Display.TextLayout | battleship.py:387-394 | the board text has 209 characters; line k shows row 9 - k with cell x at column 2x followed by a space; the first nine lines end with a newline |
| Display.EmptyBoardRows | battleship.py:94-95 | on any board whose cells hold no ship, every row reads ". . . . . . . . . . " |
| Display.InitialRows | battleship.py:157-161 | the board as created draws every row as ". . . . . . . . . . " |
| Game.Board.constructor | battleship.py:145-161 | the new board has every cell empty and unguessed, all five kinds surviving, a zero tally and nothing printed, and it is valid |
| Game.Board.GetCell | battleship.py:367-377 | returns the cell object at (x, y), whose value is the model's value for that position |
| Game.Board.ProcessMiss | battleship.py:291-306 | model, output and outcome change exactly as Rules.Miss says, and the board stays valid |
| Game.Board.ProcessHit | battleship.py:308-329 | model, output and outcome change exactly as Rules.Strike says, and the board stays valid |
| Game.Board.ProcessSunk | battleship.py:331-347 | model, output and outcome change exactly as Rules.Sink says, and the board stays valid |
| Game.Board.ProcessGuess | battleship.py:275-289 | model, output and outcome change exactly as Rules.Resolve says, and the board stays valid |
| Game.Board.CheckGuess | battleship.py:361-366 | model, output and outcome change exactly as Rules.Guess says, and the board stays valid |
| Game.Board.Recouple | battleship.py:306 | when one cell changed and the model records its new value, cells and model agree |
| Game.Board.MissRecorded | battleship.py:306 | marking an empty cell guessed in both the cell and the model leaves the board valid |
| Game.Board.HitRecorded | battleship.py:323-326 | recording a hit in the cell, the ship and the model leaves the board valid |
| Game.Board.SinkRecorded | battleship.py:342-343 | clearing the cell's ship and shrinking the surviving set in both board and model leaves the board valid |
| Game.Board.ValidateCoordinates | battleship.py:162-182 | play continues exactly when there is no coordinate error; otherwise the matching error line is printed and the outcome is fatal |
| Game.Board.ValidateShipSize | battleship.py:183-201 | play continues exactly when the size matches; otherwise the size error is printed and the outcome is fatal |
| Game.Board.CheckFleetComposition | battleship.py:202-213 | the outcome is fatal with the fleet error printed exactly when the tally does not sum to five |
| Game.Board.Walk | battleship.py:228-251 | the walk takes a vacant prefix of the segment in ascending order and stops at the first taken cell, printing the overlap error and returning a fatal outcome there; guessed and hit flags are untouched |
| Game.Board.Stopped | battleship.py:233-251 | the walk stopped where Rules.FirstTaken stops on the board before it, and the ship's positions are that prefix of the segment |
| Game.Board.Placed | battleship.py:229-251 | the walk, recorded in the model as the ship occupying the cells it took, leaves the board valid |
| Game.Board.PlaceShipOnBoard | battleship.py:214-251 | the ship occupies the vacant prefix of the segment and records it in ascending order; the outcome is fatal with the overlap error exactly when a cell was taken; the board stays valid |
| Game.Board.CountShip | battleship.py:274 | the tally of the kind grows by one |
| Game.Board.PlaceChecked | battleship.py:273-274 | after both checks passed: the ship is placed as the walk allows, and the tally of its kind grows by one exactly when no overlap was met |
| Game.Board.PlaceOneShip | battleship.py:252-274 | a coordinate error, then a size error, is printed and fatal with nothing placed or counted; otherwise the ship is placed and counted unless it overlaps; the board stays valid |
| Game.Board.RenderRow | battleship.py:390-391 | the text of one row is Display.RowText of the model |
| Game.Board.Render | battleship.py:378-394 | the board text is Display.Text of the model, whose layout Display.TextLayout states |

## Left out

- Reading the two input files and `input()` (battleship.py:498-532) and the `main` driver (battleship.py:534-553) are I/O. `Rules.Play` stands for the guess loop.
- Splitting and converting text to integers (battleship.py:263-268, battleship.py:358-360) is left out. Placements arrive as a kind and four integers, guesses as two integers. The whole line is kept only to build the error message.
- Game.Board.CheckGuess: requires that a guess passing the upper-bound check is not negative (`Rules.Indexable`). Python would index the rows from the end for such a guess, and the model does not reproduce that.
- Unknown ship kinds, which leave `_size` unset (battleship.py:422-431), cannot occur because a kind is a five-valued datatype.
- A cell stores its true coordinates. The source's `GridPos(i, j)` passes the row index as x and then sets `_y = x` (battleship.py:41, battleship.py:160), but nothing reads those fields.
- `__repr__` of cells, ships and the board is a debugging aid and is not modelled.
- Process exit codes are not modelled. The outcome value says whether and why the program stopped.
- `Ship.hit` returns `None` rather than `False` for a hit that does not sink. The model returns a boolean.
- Game.Board.PlaceOneShip: the returned ship is ghost. The source creates it locally, and the ship object survives only through the references the cells hold; the tally keeps a count per kind, not the ship.
- Cells.GridPos.constructor: the optional `ship` argument, which defaults to no ship, is not modelled; the board never passes it when it builds the grid (battleship.py:160).
- Rules.Place: on an overlap it returns only the error, not the board with the cells before the taken one already occupied. That partial state is modelled by `Game.Board.Walk` and `Game.Board.PlaceShipOnBoard`, and `Rules.PlaceWalk` relates the two.
