/** The game rules stated over a value of the board's state: placement of one ship,
    resolution of one guess, a run of guesses, and the fleet-count check. The Board
    class in module Game is proved to change its cells, ships and surviving kinds
    exactly as these functions say. */
module Rules {
  import opened Wrappers
  import opened Fleet
  import opened Ships
  import opened Cells

  /** Every cell of the 10-by-10 board. */
  const Coords: set<Pos> := set x: int, y: int | 0 <= x <= 9 && 0 <= y <= 9 :: (x, y)

  predicate OnBoard(x: int, y: int) {
    0 <= x <= 9 && 0 <= y <= 9
  }

  /** The state of a board as a value: each cell's ship reference and flags, the hit
      count of every ship placed so far, and the kinds not yet sunk. */
  datatype View = View(cells: map<Pos, CellVal>, hits: map<Ship, nat>, surviving: set<Kind>)

  /** The board as created: every cell empty and unguessed, no ship, all kinds afloat. */
  const Initial := View(map p | p in Coords :: Empty, map[], AllKinds)

  /** All hundred cells are present and every referenced ship has a hit count. */
  predicate Shaped(v: View) {
    v.cells.Keys == Coords &&
    forall p :: p in v.cells && v.cells[p].ship != null ==> v.cells[p].ship in v.hits
  }

  /** The cells that still reference `s` and have not been guessed. */
  function Afloat(v: View, s: Ship): set<Pos> {
    set p | p in v.cells && v.cells[p].ship == s && !v.cells[p].guessed
  }

  /** The invariant the game keeps: a hit cell has been guessed, and a ship's hits plus
      its unguessed cells never exceed its size, so hits never exceed the size. */
  predicate WellFormed(v: View) {
    Shaped(v) &&
    (forall p :: p in v.cells && v.cells[p].hit ==> v.cells[p].guessed) &&
    (forall s {:trigger Bounded(v, s)} :: s in v.hits ==> Bounded(v, s))
  }

  /** The hits on `s` plus its unguessed cells are at most its size. */
  predicate Bounded(v: View, s: Ship)
    requires s in v.hits
  {
    v.hits[s] + |Afloat(v, s)| <= s.Size()
  }

  lemma InitialWellFormed()
    ensures WellFormed(Initial)
    ensures forall p :: p in Initial.cells ==> Glyph(Initial.cells[p]) == '.'
  {
  }

  lemma {:induction false} SubsetCard<T>(a: set<T>, b: set<T>)
    requires a <= b
    ensures |a| <= |b|
    decreases |b|
  {
    if a != {} {
      var x :| x in a;
      SubsetCard(a - {x}, b - {x});
    }
  }

  lemma {:induction false} SeqSetCard<T>(s: seq<T>)
    ensures |set x | x in s| <= |s|
  {
    if s != [] {
      SeqSetCard(s[1..]);
      assert (set x | x in s) == (set x | x in s[1..]) + {s[0]};
    }
  }

  /** A well-formed board never records more hits on a ship than its size. */
  lemma HitsWithinSize(v: View, s: Ship)
    requires WellFormed(v) && s in v.hits
    ensures v.hits[s] <= s.Size()
    ensures v.hits[s] == s.Size() ==> Afloat(v, s) == {}
  {
    assert Bounded(v, s);
  }

  // ---------------------------------------------------------------- placement

  datatype PlacementError = OutOfBounds | NotStraight | WrongSize | Overlapping

  /** The diagnostic printed for a rejected placement line. */
  function ErrorLine(e: PlacementError, line: string): string {
    match e
    case OutOfBounds => "ERROR: ship out-of-bounds: " + line
    case NotStraight => "ERROR: ship not horizontal or vertical: " + line
    case WrongSize => "ERROR: incorrect ship size: " + line
    case Overlapping => "ERROR: overlapping ship: " + line
  }

  const FleetErrorLine := "ERROR: fleet composition incorrect"

  /** The two checks of validate_coordinates, in their order: any end off the board,
      then two ends that share neither column nor row. */
  function CoordinateError(x1: int, y1: int, x2: int, y2: int): (e: Option<PlacementError>)
    ensures e == Some(OutOfBounds) <==> !OnBoard(x1, y1) || !OnBoard(x2, y2)
    ensures e == Some(NotStraight) <==> OnBoard(x1, y1) && OnBoard(x2, y2) && x1 != x2 && y1 != y2
    ensures e.None? <==> OnBoard(x1, y1) && OnBoard(x2, y2) && (x1 == x2 || y1 == y2)
  {
    if x1 < 0 || x1 > 9 || y1 < 0 || y1 > 9 || x2 < 0 || x2 > 9 || y2 < 0 || y2 > 9 then
      Some(OutOfBounds)
    else if x1 != x2 && y1 != y2 then
      Some(NotStraight)
    else
      None
  }

  function Max(a: int, b: int): int {
    if a < b then b else a
  }

  function Min(a: int, b: int): int {
    if a < b then a else b
  }

  /** The check of validate_ship_size as written: for two ends in one column (or one
      row) the span between them plus one must equal the ship's size. */
  predicate SizeMismatch(x1: int, y1: int, x2: int, y2: int, size: nat)
    ensures x1 == x2 && y1 == y2 ==> (SizeMismatch(x1, y1, x2, y2, size) <==> size != 1)
    ensures x1 == x2 || y1 == y2 ==>
      (SizeMismatch(x1, y1, x2, y2, size) <==> Span(x1, y1, x2, y2) != size)
  {
    (x1 == x2 && Max(y1 - y2, y2 - y1) + 1 != size) ||
    (y1 == y2 && Max(x1 - x2, x2 - x1) + 1 != size)
  }

  /** Entry `j` of the segment between two ends, counted from the lower end: up the
      column when both ends share x, otherwise along the row. */
  function At(x1: int, y1: int, x2: int, y2: int, j: int): Pos {
    if x1 == x2 then (x1, Min(y1, y2) + j) else (Min(x1, x2) + j, y1)
  }

  /** The number of cells between two ends of a straight placement, both included. */
  function Span(x1: int, y1: int, x2: int, y2: int): nat {
    if x1 == x2 then Max(y1, y2) - Min(y1, y2) + 1 else Max(x1, x2) - Min(x1, x2) + 1
  }

  /** The cells a straight placement covers, in the order place_ship_on_board visits
      them: a column from the lower y upwards, otherwise a row from the lower x. */
  function Segment(x1: int, y1: int, x2: int, y2: int): seq<Pos>
    requires x1 == x2 || y1 == y2
  {
    seq(Span(x1, y1, x2, y2), j => At(x1, y1, x2, y2, j))
  }

  /** A segment runs from one end to the other, one cell at a time along its axis in
      ascending order, and its length is the one validate_ship_size compares. */
  lemma SegmentShape(x1: int, y1: int, x2: int, y2: int)
    requires x1 == x2 || y1 == y2
    ensures var seg := Segment(x1, y1, x2, y2);
      |seg| >= 1 &&
      {seg[0], seg[|seg| - 1]} == {(x1, y1), (x2, y2)} &&
      (forall i :: 0 <= i < |seg| - 1 ==>
        seg[i + 1] == if x1 == x2 then (seg[i].0, seg[i].1 + 1) else (seg[i].0 + 1, seg[i].1)) &&
      (forall size: nat :: SizeMismatch(x1, y1, x2, y2, size) <==> |seg| != size)
  {
  }

  /** Every cell of a segment between two cells of the board is on the board. */
  lemma SegmentOnBoard(x1: int, y1: int, x2: int, y2: int)
    requires OnBoard(x1, y1) && OnBoard(x2, y2) && (x1 == x2 || y1 == y2)
    ensures forall i :: 0 <= i < |Segment(x1, y1, x2, y2)| ==> Segment(x1, y1, x2, y2)[i] in Coords
  {
  }

  /** No cell of `seg` holds a ship. */
  predicate Vacant(v: View, seg: seq<Pos>) {
    forall i :: 0 <= i < |seg| ==> seg[i] in v.cells && v.cells[seg[i]].ship == null
  }

  /** `v` with ship `s` known (no hits yet) and referenced from every cell of `covered`. */
  function Occupy(v: View, s: Ship, covered: set<Pos>): View {
    v.(cells := map p | p in v.cells :: if p in covered then v.cells[p].(ship := s) else v.cells[p],
       hits := v.hits[s := 0])
  }

  /** The cells of the first `k` entries of `seg`. */
  function Prefix(seg: seq<Pos>, k: int): set<Pos>
    requires 0 <= k <= |seg|
  {
    set p | p in seg[..k]
  }

  /** Covering no cell changes no cell; only the ship becomes known. */
  lemma OccupyNothing(v: View, s: Ship, seg: seq<Pos>)
    ensures Occupy(v, s, Prefix(seg, 0)) == v.(hits := v.hits[s := 0])
  {
    assert Prefix(seg, 0) == {};
    assert Occupy(v, s, {}).cells == v.cells;
  }

  /** The cells of a segment are pairwise different. */
  lemma SegmentDistinct(x1: int, y1: int, x2: int, y2: int)
    requires x1 == x2 || y1 == y2
    ensures var seg := Segment(x1, y1, x2, y2);
      forall i, j :: 0 <= i < j < |seg| ==> seg[i] != seg[j]
  {
  }

  /** How many cells at the start of `seg` hold no ship: the walk of
      place_ship_on_board stops at this index when it is less than |seg|. */
  function FirstTaken(v: View, seg: seq<Pos>): (k: nat)
    ensures k <= |seg| && Vacant(v, seg[..k])
    ensures k < |seg| ==> seg[k] !in v.cells || v.cells[seg[k]].ship != null
  {
    if seg == [] then 0
    else if seg[0] in v.cells && v.cells[seg[0]].ship == null then
      var k := 1 + FirstTaken(v, seg[1..]);
      assert forall i :: 1 <= i < k ==> seg[..k][i] == seg[1..][..k - 1][i - 1];
      k
    else 0
  }

  /** The walk stops exactly at the first cell that holds a ship: a vacant prefix
      followed by a taken cell has the length FirstTaken gives, and FirstTaken reaches
      the end exactly when the whole segment is vacant. */
  lemma FirstTakenAt(v: View, seg: seq<Pos>, k: int)
    requires 0 <= k <= |seg| && Vacant(v, seg[..k])
    requires k < |seg| ==> seg[k] !in v.cells || v.cells[seg[k]].ship != null
    ensures FirstTaken(v, seg) == k
    ensures k == |seg| <==> Vacant(v, seg)
  {
    assert seg[..|seg|] == seg;
  }

  /** `p` is one of the first `k` cells of the segment between the two ends, told by
      its coordinates: on the segment's column (or row), at most k - 1 steps above the
      lower end. */
  predicate InSpan(x1: int, y1: int, x2: int, y2: int, k: int, p: Pos) {
    if x1 == x2 then p.0 == x1 && Min(y1, y2) <= p.1 < Min(y1, y2) + k
    else p.1 == y1 && Min(x1, x2) <= p.0 < Min(x1, x2) + k
  }

  /** One more step of a walk adds exactly the next cell of the segment. */
  lemma SpanStep(x1: int, y1: int, x2: int, y2: int, k: int, p: Pos)
    requires (x1 == x2 || y1 == y2) && 0 <= k
    ensures InSpan(x1, y1, x2, y2, k + 1, p) <==> InSpan(x1, y1, x2, y2, k, p) || p == At(x1, y1, x2, y2, k)
  {
  }

  /** The cells of the first `k` entries of a segment are those InSpan describes. */
  lemma PrefixSpan(x1: int, y1: int, x2: int, y2: int, k: int)
    requires x1 == x2 || y1 == y2
    requires 0 <= k <= |Segment(x1, y1, x2, y2)|
    ensures forall p :: p in Prefix(Segment(x1, y1, x2, y2), k) <==> InSpan(x1, y1, x2, y2, k, p)
  {
    var seg := Segment(x1, y1, x2, y2);
    forall p | InSpan(x1, y1, x2, y2, k, p)
      ensures p in Prefix(seg, k)
    {
      var j := if x1 == x2 then p.1 - Min(y1, y2) else p.0 - Min(x1, x2);
      assert seg[..k][j] == p;
    }
  }

  /** A walk that found the first `k` cells of a segment vacant and then either
      reached its end or met a taken cell has stopped where FirstTaken says, and the
      cells it covered are those InSpan describes. */
  lemma Walked(v: View, x1: int, y1: int, x2: int, y2: int, k: int)
    requires x1 == x2 || y1 == y2
    requires 0 <= k <= Span(x1, y1, x2, y2)
    requires forall j :: 0 <= j < k ==> At(x1, y1, x2, y2, j) in v.cells && v.cells[At(x1, y1, x2, y2, j)].ship == null
    requires k < Span(x1, y1, x2, y2) ==>
      At(x1, y1, x2, y2, k) !in v.cells || v.cells[At(x1, y1, x2, y2, k)].ship != null
    ensures FirstTaken(v, Segment(x1, y1, x2, y2)) == k
    ensures forall p :: p in Prefix(Segment(x1, y1, x2, y2), k) <==> InSpan(x1, y1, x2, y2, k, p)
  {
    var seg := Segment(x1, y1, x2, y2);
    assert forall j :: 0 <= j < k ==> seg[..k][j] == At(x1, y1, x2, y2, j);
    FirstTakenAt(v, seg, k);
    PrefixSpan(x1, y1, x2, y2, k);
  }

  /** A sequence whose entries are the first `k` entries of a segment is that prefix. */
  lemma PrefixOf(s: seq<Pos>, x1: int, y1: int, x2: int, y2: int, k: int)
    requires x1 == x2 || y1 == y2
    requires 0 <= k <= Span(x1, y1, x2, y2) && |s| == k
    requires forall j :: 0 <= j < k ==> s[j] == At(x1, y1, x2, y2, j)
    ensures s == Segment(x1, y1, x2, y2)[..k]
  {
  }

  /** Covering the whole of a segment covers the set of its cells. */
  lemma PrefixAll(seg: seq<Pos>)
    ensures Prefix(seg, |seg|) == set p | p in seg
  {
    assert seg[..|seg|] == seg;
  }

  /** place_one_ship without its tally: the coordinate checks, the size check, then the
      overlap check, and on success the ship referenced from every covered cell. */
  function Place(v: View, s: Ship, x1: int, y1: int, x2: int, y2: int): (r: Result<View, PlacementError>)
    ensures r.Success? ==>
      r.value.cells.Keys == v.cells.Keys && r.value.hits == v.hits[s := 0] && r.value.surviving == v.surviving
    ensures r.Success? ==> forall p :: p in v.cells && v.cells[p].ship != null ==> r.value.cells[p] == v.cells[p]
  {
    match CoordinateError(x1, y1, x2, y2)
    case Some(e) => Failure(e)
    case None =>
      if SizeMismatch(x1, y1, x2, y2, s.Size()) then
        Failure(WrongSize)
      else
        var seg := Segment(x1, y1, x2, y2);
        if Vacant(v, seg) then Success(Occupy(v, s, set p | p in seg)) else Failure(Overlapping)
  }

  /** A placement with an end off the board is rejected as out of bounds; one inside
      the board whose ends share neither row nor column as not straight; a straight one
      whose length differs from the kind's size, in particular a single cell, as the
      wrong size. None of these touch the board. */
  lemma PlaceRejects(v: View, s: Ship, x1: int, y1: int, x2: int, y2: int)
    ensures !OnBoard(x1, y1) || !OnBoard(x2, y2) ==> Place(v, s, x1, y1, x2, y2) == Failure(OutOfBounds)
    ensures OnBoard(x1, y1) && OnBoard(x2, y2) && x1 != x2 && y1 != y2 ==>
      Place(v, s, x1, y1, x2, y2) == Failure(NotStraight)
    ensures OnBoard(x1, y1) && OnBoard(x2, y2) && (x1 == x2 || y1 == y2) ==>
      (Place(v, s, x1, y1, x2, y2) == Failure(WrongSize) <==> |Segment(x1, y1, x2, y2)| != s.Size())
    ensures OnBoard(x1, y1) && x1 == x2 && y1 == y2 ==> Place(v, s, x1, y1, x2, y2) == Failure(WrongSize)
  {
  }

  /** Occupying vacant cells that lie on a segment no longer than the new ship keeps the
      invariant: the new ship has no hits and at most its size of unguessed cells, and
      no other ship loses or gains a cell. This covers a placement cut short by an
      overlap as well as a complete one. */
  lemma {:induction false} OccupyWellFormed(v: View, s: Ship, covered: set<Pos>, seg: seq<Pos>)
    requires WellFormed(v) && s !in v.hits
    requires covered <= (set p | p in seg) && |seg| <= s.Size()
    requires forall p :: p in covered ==> p in v.cells && v.cells[p].ship == null
    ensures WellFormed(Occupy(v, s, covered))
  {
    var w := Occupy(v, s, covered);
    assert Afloat(w, s) <= covered;
    SubsetCard(Afloat(w, s), set p | p in seg);
    SeqSetCard(seg);
    forall t | t in w.hits
      ensures Bounded(w, t)
    {
      if t != s {
        assert Bounded(v, t);
        assert Afloat(w, t) == Afloat(v, t);
      }
    }
  }

  /** A successful placement references the new ship from exactly the cells of its
      segment, which has the kind's size, leaves every other cell and every other
      ship's hits as they were, and keeps the invariant. */
  lemma PlaceSucceeds(v: View, s: Ship, x1: int, y1: int, x2: int, y2: int)
    requires WellFormed(v) && s !in v.hits && Place(v, s, x1, y1, x2, y2).Success?
    ensures x1 == x2 || y1 == y2
    ensures var w := Place(v, s, x1, y1, x2, y2).value;
      var seg := Segment(x1, y1, x2, y2);
      WellFormed(w) && |seg| == s.Size() &&
      (forall p :: p in w.cells ==> (w.cells[p].ship == s <==> p in seg)) &&
      (forall p :: p in w.cells && p !in seg ==> w.cells[p] == v.cells[p]) &&
      (forall p :: p in w.cells && p in seg ==> w.cells[p] == v.cells[p].(ship := s)) &&
      w.hits == v.hits[s := 0] && w.surviving == v.surviving
  {
    var seg := Segment(x1, y1, x2, y2);
    OccupyWellFormed(v, s, (set p | p in seg), seg);
  }

  /** Placing cell by cell, as the source does, agrees with Place: when the walk from
      the lower end meets no taken cell it occupies the whole segment, which is Place's
      success; otherwise Place reports the overlap, while the walk has already occupied
      the cells before the taken one. */
  lemma PlaceWalk(v: View, s: Ship, x1: int, y1: int, x2: int, y2: int)
    requires CoordinateError(x1, y1, x2, y2).None? && !SizeMismatch(x1, y1, x2, y2, s.Size())
    ensures var seg := Segment(x1, y1, x2, y2);
      var k := FirstTaken(v, seg);
      (k == |seg| ==> seg[..k] == seg && Place(v, s, x1, y1, x2, y2) == Success(Occupy(v, s, Prefix(seg, k)))) &&
      (k < |seg| ==> Place(v, s, x1, y1, x2, y2) == Failure(Overlapping))
  {
    var seg := Segment(x1, y1, x2, y2);
    var k := FirstTaken(v, seg);
    if k == |seg| {
      assert seg[..k] == seg;
      PrefixAll(seg);
    } else {
      assert seg[k] !in v.cells || v.cells[seg[k]].ship != null;
    }
  }

  /** Two ships whose segments share a cell cannot both be placed, whichever comes
      first: once the first is on the board the second is reported as overlapping. */
  lemma PlaceOverlapping(v: View, s1: Ship, s2: Ship, a: (int, int, int, int), b: (int, int, int, int), q: Pos)
    requires WellFormed(v) && s1 !in v.hits
    requires Place(v, s1, a.0, a.1, a.2, a.3).Success?
    requires CoordinateError(b.0, b.1, b.2, b.3).None? && !SizeMismatch(b.0, b.1, b.2, b.3, s2.Size())
    requires q in Segment(a.0, a.1, a.2, a.3) && q in Segment(b.0, b.1, b.2, b.3)
    ensures Place(Place(v, s1, a.0, a.1, a.2, a.3).value, s2, b.0, b.1, b.2, b.3) == Failure(Overlapping)
  {
    PlaceSucceeds(v, s1, a.0, a.1, a.2, a.3);
    var w := Place(v, s1, a.0, a.1, a.2, a.3).value;
    var seg := Segment(b.0, b.1, b.2, b.3);
    var i :| 0 <= i < |seg| && seg[i] == q;
    assert w.cells[seg[i]].ship == s1;
  }

  // ---------------------------------------------------------------- fleet tally

  /** The zero tally the board starts with. */
  const NoShips: map<Kind, nat> := map[A := 0, B := 0, S := 0, D := 0, P := 0]

  /** The sum of the per-kind tally. */
  function TotalShips(counts: map<Kind, nat>): nat
    requires AllKinds <= counts.Keys
  {
    counts[A] + counts[B] + counts[S] + counts[D] + counts[P]
  }

  /** check_fleet_composition: the tally sums to five. It counts ships, not kinds. */
  predicate FleetComplete(counts: map<Kind, nat>)
    requires AllKinds <= counts.Keys
    ensures FleetComplete(counts) ==> forall k :: k in AllKinds ==> counts[k] <= 5
    ensures counts == NoShips ==> !FleetComplete(counts)
  {
    TotalShips(counts) == 5
  }

  /** The tally after a run of successful placements of the given kinds. */
  function Tally(kinds: seq<Kind>): (counts: map<Kind, nat>)
    ensures counts.Keys == AllKinds
  {
    if kinds == [] then NoShips
    else
      var before := Tally(kinds[..|kinds| - 1]);
      var k := kinds[|kinds| - 1];
      EveryKind(k);
      before[k := before[k] + 1]
  }

  /** Counting one more placement of kind `k`, as place_one_ship does after a
      successful placement, is one more step of Tally. */
  lemma TallyAppend(kinds: seq<Kind>, k: Kind)
    ensures k in Tally(kinds)
    ensures Tally(kinds + [k]) == Tally(kinds)[k := Tally(kinds)[k] + 1]
  {
    var longer := kinds + [k];
    TallyCounts(kinds);
    TallyCounts(longer);
    assert multiset(longer) == multiset(kinds) + multiset{k};
    EveryKind(k);
    var after, stepped := Tally(longer), Tally(kinds)[k := Tally(kinds)[k] + 1];
    forall j | j in after.Keys
      ensures j in stepped && after[j] == stepped[j]
    {
    }
  }

  /** One more ship of kind `k` adds one to the total. */
  lemma TotalBump(counts: map<Kind, nat>, k: Kind)
    requires AllKinds <= counts.Keys
    ensures k in counts && TotalShips(counts[k := counts[k] + 1]) == TotalShips(counts) + 1
  {
    match k
    case A =>
    case B =>
    case S =>
    case D =>
    case P =>
  }

  /** Each kind's tally is the number of its placements, and the fleet check passes
      exactly when five ships were placed, whatever their kinds. */
  lemma {:induction false} TallyCounts(kinds: seq<Kind>)
    ensures forall k :: k in AllKinds ==> Tally(kinds)[k] == multiset(kinds)[k]
    ensures TotalShips(Tally(kinds)) == |kinds|
    ensures FleetComplete(Tally(kinds)) <==> |kinds| == 5
  {
    if kinds != [] {
      var init, k := kinds[..|kinds| - 1], kinds[|kinds| - 1];
      TallyCounts(init);
      assert kinds == init + [k];
      assert multiset(kinds) == multiset(init) + multiset{k};
      TotalBump(Tally(init), k);
    }
  }

  /** The check accepts a fleet with two carriers and no patrol boat. */
  lemma FleetCheckIgnoresKinds()
    ensures FleetComplete(Tally([A, A, B, S, D])) && Tally([A, A, B, S, D])[P] == 0
  {
    TallyCounts([A, A, B, S, D]);
  }

  // ---------------------------------------------------------------- guesses

  /** What happens after an operation: play goes on, a placement or the fleet was
      rejected, the last kind was sunk, or the removal of an already removed kind from
      the surviving set raised Python's KeyError. */
  datatype Outcome = Continue | Fatal(message: string) | GameOver | Raised(exception: string)

  /** The new state, the lines printed, and the outcome. */
  datatype Step = Step(view: View, lines: seq<string>, outcome: Outcome)

  function SunkLine(k: Kind): string {
    [Letter(k)] + " sunk"
  }

  const GameOverLine := "all ships sunk: game over"

  /** The cell `p` marked as guessed. */
  function MarkGuessed(v: View, p: Pos): View
    requires p in v.cells
  {
    v.(cells := v.cells[p := v.cells[p].(guessed := true)])
  }

  /** The cell `p` marked as guessed and hit, and one more hit on its ship. */
  function Struck(v: View, p: Pos): View
    requires p in v.cells && v.cells[p].ship != null && v.cells[p].ship in v.hits
  {
    v.(cells := v.cells[p := v.cells[p].(guessed := true, hit := true)],
       hits := v.hits[v.cells[p].ship := v.hits[v.cells[p].ship] + 1])
  }

  /** The cell `p` without its ship reference. */
  function Cleared(v: View, p: Pos): View
    requires p in v.cells
  {
    v.(cells := v.cells[p := v.cells[p].(ship := null)])
  }

  /** process_miss: a first guess on an empty cell marks it; a later one changes nothing. */
  function Miss(v: View, p: Pos): Step
    requires p in v.cells
  {
    if v.cells[p].guessed then Step(v, ["miss (again)"], Continue)
    else Step(MarkGuessed(v, p), ["miss"], Continue)
  }

  /** process_sunk, applied once the sinking hit on `s` at `p` is recorded: only the
      cell `p` loses its ship reference, and the kind leaves the surviving set. */
  function Sink(v: View, p: Pos, s: Ship): Step
    requires p in v.cells
  {
    var cleared := Cleared(v, p);
    if s.kind !in v.surviving then
      Step(cleared, [SunkLine(s.kind)], Raised("KeyError"))
    else
      var left := v.surviving - {s.kind};
      if left == {} then Step(cleared.(surviving := left), [SunkLine(s.kind), GameOverLine], GameOver)
      else Step(cleared.(surviving := left), [SunkLine(s.kind)], Continue)
  }

  /** process_hit: a first guess on a ship cell marks it guessed and hit and adds one hit
      to its ship, which sinks when its hits reach its size; a later guess changes nothing. */
  function Strike(v: View, p: Pos): Step
    requires Shaped(v) && p in v.cells && v.cells[p].ship != null
  {
    var s := v.cells[p].ship;
    if v.cells[p].guessed then Step(v, ["hit (again)"], Continue)
    else if v.hits[s] + 1 == s.Size() then Sink(Struck(v, p), p, s)
    else Step(Struck(v, p), ["hit"], Continue)
  }

  /** process_guess: the cell at (x, y) resolved as a miss or a hit. */
  function Resolve(v: View, x: int, y: int): Step
    requires Shaped(v) && OnBoard(x, y)
  {
    if v.cells[(x, y)].ship == null then Miss(v, (x, y)) else Strike(v, (x, y))
  }

  /** A guess that check_guess lets through must not be negative: Python would index
      the rows from the end. */
  predicate Indexable(x: int, y: int) {
    x <= 9 && y <= 9 ==> 0 <= x && 0 <= y
  }

  /** check_guess: only the upper bound is tested before the cell is resolved. */
  function Guess(v: View, x: int, y: int): (r: Step)
    requires Shaped(v) && Indexable(x, y)
    ensures Shaped(r.view)
    ensures r.view.hits.Keys == v.hits.Keys
  {
    if x <= 9 && y <= 9 then Resolve(v, x, y) else Step(v, ["illegal guess"], Continue)
  }

  /** Changing one cell leaves every ship's unguessed cells elsewhere as they were. */
  lemma AfloatFrame(v: View, w: View, p: Pos, t: Ship)
    requires w.cells.Keys == v.cells.Keys && p in v.cells
    requires forall q :: q in v.cells && q != p ==> w.cells[q] == v.cells[q]
    ensures Afloat(w, t) - {p} == Afloat(v, t) - {p}
    ensures p !in Afloat(v, t) && p !in Afloat(w, t) ==> Afloat(w, t) == Afloat(v, t)
    ensures p in Afloat(v, t) && p !in Afloat(w, t) ==> |Afloat(w, t)| + 1 == |Afloat(v, t)|
  {
    if p in Afloat(v, t) && p !in Afloat(w, t) {
      assert Afloat(v, t) == Afloat(w, t) + {p};
    }
  }

  /** Marking a cell without a ship as guessed keeps the invariant. */
  lemma MarkGuessedWellFormed(v: View, p: Pos)
    requires WellFormed(v) && p in v.cells && v.cells[p].ship == null
    ensures WellFormed(MarkGuessed(v, p))
  {
    var w := MarkGuessed(v, p);
    forall t | t in w.hits
      ensures Bounded(w, t)
    {
      assert Bounded(v, t);
      AfloatFrame(v, w, p, t);
    }
  }

  /** Recording a hit on an unguessed ship cell keeps the invariant: the ship gains one
      hit and loses one unguessed cell. */
  lemma StruckWellFormed(v: View, p: Pos)
    requires WellFormed(v) && p in v.cells && v.cells[p].ship != null && !v.cells[p].guessed
    ensures WellFormed(Struck(v, p))
    ensures Struck(v, p).hits[v.cells[p].ship] <= v.cells[p].ship.Size()
  {
    var s := v.cells[p].ship;
    var w := Struck(v, p);
    assert p in Afloat(v, s);
    forall t | t in w.hits
      ensures Bounded(w, t)
    {
      assert Bounded(v, t);
      AfloatFrame(v, w, p, t);
    }
  }

  /** Clearing the ship reference of a cell keeps the invariant: no ship gains an
      unguessed cell. */
  lemma ClearedWellFormed(v: View, p: Pos)
    requires WellFormed(v) && p in v.cells
    ensures WellFormed(Cleared(v, p))
  {
    var w := Cleared(v, p);
    forall t | t in w.hits
      ensures Bounded(w, t)
    {
      assert Bounded(v, t);
      assert Afloat(w, t) <= Afloat(v, t);
      SubsetCard(Afloat(w, t), Afloat(v, t));
    }
  }

  /** Changing which kinds survive does not affect the invariant. */
  lemma SurvivingIrrelevant(v: View, left: set<Kind>)
    requires WellFormed(v)
    ensures WellFormed(v.(surviving := left))
  {
    var w := v.(surviving := left);
    forall t | t in w.hits
      ensures Bounded(w, t)
    {
      assert Bounded(v, t);
      assert Afloat(w, t) == Afloat(v, t);
    }
  }

  /** A guess keeps the invariant, so no ship ever records more hits than its size. */
  lemma GuessWellFormed(v: View, x: int, y: int)
    requires WellFormed(v) && Indexable(x, y)
    ensures WellFormed(Guess(v, x, y).view)
  {
    if x <= 9 && y <= 9 {
      var p := (x, y);
      var s := v.cells[p].ship;
      if s == null {
        if !v.cells[p].guessed {
          MarkGuessedWellFormed(v, p);
          assert Guess(v, x, y).view == MarkGuessed(v, p);
        }
      } else if !v.cells[p].guessed {
        StruckWellFormed(v, p);
        if v.hits[s] + 1 == s.Size() {
          var c := Cleared(Struck(v, p), p);
          ClearedWellFormed(Struck(v, p), p);
          SurvivingIrrelevant(c, v.surviving - {s.kind});
          assert Guess(v, x, y).view == c || Guess(v, x, y).view == c.(surviving := v.surviving - {s.kind});
        } else {
          assert Guess(v, x, y).view == Struck(v, p);
        }
      }
    }
  }

  /** A guess past the upper bound is reported as illegal and changes nothing. */
  lemma IllegalGuess(v: View, x: int, y: int)
    requires Shaped(v) && (x > 9 || y > 9)
    ensures Guess(v, x, y) == Step(v, ["illegal guess"], Continue)
  {
  }

  /** A first guess on a cell without a ship reports a miss and sets only its guessed
      flag; it never sets the hit flag nor touches any ship's hits. */
  lemma FirstMiss(v: View, x: int, y: int)
    requires WellFormed(v) && OnBoard(x, y)
    requires v.cells[(x, y)].ship == null && !v.cells[(x, y)].guessed
    ensures var r := Guess(v, x, y);
      r.lines == ["miss"] && r.outcome == Continue &&
      r.view == v.(cells := v.cells[(x, y) := v.cells[(x, y)].(guessed := true)]) &&
      !r.view.cells[(x, y)].hit && r.view.hits == v.hits
  {
  }

  /** A guess on an already guessed cell changes nothing and reports "miss (again)" or
      "hit (again)", depending on whether the cell still references a ship. The cell
      that sank a ship references none any more, so it reports "miss (again)". */
  lemma RepeatedGuess(v: View, x: int, y: int)
    requires Shaped(v) && OnBoard(x, y) && v.cells[(x, y)].guessed
    ensures Guess(v, x, y).view == v && Guess(v, x, y).outcome == Continue
    ensures Guess(v, x, y).lines == if v.cells[(x, y)].ship == null then ["miss (again)"] else ["hit (again)"]
  {
  }

  /** A first guess on a ship cell marks it guessed and hit and adds exactly one hit to
      that ship; when the ship's hits stay below its size it reports "hit" and nothing
      else changes. */
  lemma FirstHit(v: View, x: int, y: int)
    requires WellFormed(v) && OnBoard(x, y)
    requires v.cells[(x, y)].ship != null && !v.cells[(x, y)].guessed
    ensures var s := v.cells[(x, y)].ship;
      var r := Guess(v, x, y);
      r.view.hits == v.hits[s := v.hits[s] + 1] && r.view.hits[s] <= s.Size() &&
      r.view.cells[(x, y)].guessed && r.view.cells[(x, y)].hit &&
      (forall q :: q in v.cells && q != (x, y) ==> r.view.cells[q] == v.cells[q]) &&
      (v.hits[s] + 1 < s.Size() ==>
        r == Step(Struck(v, (x, y)), ["hit"], Continue) && r.view.cells[(x, y)].ship == s)
  {
    var p, s := (x, y), v.cells[(x, y)].ship;
    StruckWellFormed(v, p);
    var w := Struck(v, p);
    assert Guess(v, x, y) == Strike(v, p);
    if v.hits[s] + 1 == s.Size() {
      assert Guess(v, x, y).view.cells == Cleared(w, p).cells;
    }
  }

  /** The hit that brings a ship's hits to its size reports "<kind> sunk", clears the
      ship reference of that one cell only, and removes the kind from the surviving
      set; if the set is then empty it also reports the end of the game. Sinking a kind
      that is no longer in the set raises KeyError. */
  lemma SinkingHit(v: View, x: int, y: int)
    requires Shaped(v) && OnBoard(x, y)
    requires v.cells[(x, y)].ship != null && !v.cells[(x, y)].guessed
    requires v.hits[v.cells[(x, y)].ship] + 1 == v.cells[(x, y)].ship.Size()
    ensures var s := v.cells[(x, y)].ship;
      var r := Guess(v, x, y);
      r.view.cells[(x, y)] == CellVal(null, true, true) &&
      r.lines[0] == SunkLine(s.kind) &&
      (s.kind in v.surviving ==>
        r.view.surviving == v.surviving - {s.kind} &&
        (r.outcome == GameOver <==> v.surviving == {s.kind}) &&
        r.lines == if r.outcome == GameOver then [SunkLine(s.kind), GameOverLine] else [SunkLine(s.kind)]) &&
      (s.kind !in v.surviving ==> r.outcome == Raised("KeyError"))
    ensures var s := v.cells[(x, y)].ship;
      Guess(v, x, y).view.hits == v.hits[s := s.Size()]
    ensures forall q :: q in v.cells && q != (x, y) ==> Guess(v, x, y).view.cells[q] == v.cells[q]
  {
  }

  // ---------------------------------------------------------------- runs of guesses

  predicate AllIndexable(gs: seq<Pos>) {
    forall i :: 0 <= i < |gs| ==> Indexable(gs[i].0, gs[i].1)
  }

  /** The guesses resolved one after another until one does not let play continue;
      the lines of every resolved guess, in order, and the last outcome. */
  function Play(v: View, gs: seq<Pos>): (r: Step)
    requires Shaped(v) && AllIndexable(gs)
    ensures Shaped(r.view)
    decreases |gs|
  {
    if gs == [] then
      Step(v, [], Continue)
    else
      var first := Guess(v, gs[0].0, gs[0].1);
      if first.outcome != Continue then first
      else
        var rest := Play(first.view, gs[1..]);
        Step(rest.view, first.lines + rest.lines, rest.outcome)
  }

  /** A run of guesses keeps the invariant. */
  lemma {:induction false} PlayWellFormed(v: View, gs: seq<Pos>)
    requires WellFormed(v) && AllIndexable(gs)
    ensures WellFormed(Play(v, gs).view)
    decreases |gs|
  {
    if gs != [] {
      GuessWellFormed(v, gs[0].0, gs[0].1);
      if Guess(v, gs[0].0, gs[0].1).outcome == Continue {
        PlayWellFormed(Guess(v, gs[0].0, gs[0].1).view, gs[1..]);
      }
    }
  }

  /** Once the game is over, no later guess is resolved: a run that starts with the
      sinking of the last kind prints nothing after the game-over line. */
  lemma StopsAtGameOver(v: View, gs: seq<Pos>)
    requires Shaped(v) && AllIndexable(gs) && gs != []
    requires Guess(v, gs[0].0, gs[0].1).outcome == GameOver
    ensures Play(v, gs) == Guess(v, gs[0].0, gs[0].1)
    ensures Play(v, gs).lines[|Play(v, gs).lines| - 1] == GameOverLine
  {
  }

  /** A run whose first guess lets play continue prints that guess's lines and then
      those of the rest of the run, resolved from the board the first guess left. */
  lemma PlayFirst(v: View, gs: seq<Pos>)
    requires Shaped(v) && AllIndexable(gs) && gs != []
    requires Guess(v, gs[0].0, gs[0].1).outcome == Continue
    ensures var first := Guess(v, gs[0].0, gs[0].1);
      var rest := Play(first.view, gs[1..]);
      Play(v, gs) == Step(rest.view, first.lines + rest.lines, rest.outcome)
  {
  }

  /** Once a run has stopped (game over, a raised exception), any further guesses are
      never resolved: the run extended by them prints and changes nothing more. */
  lemma {:induction false} StopsForGood(v: View, gs: seq<Pos>, more: seq<Pos>)
    requires Shaped(v) && AllIndexable(gs) && AllIndexable(more)
    requires Play(v, gs).outcome != Continue
    ensures AllIndexable(gs + more)
    ensures Play(v, gs + more) == Play(v, gs)
    decreases |gs|
  {
    assert forall i :: 0 <= i < |gs + more| ==> (gs + more)[i] == if i < |gs| then gs[i] else more[i - |gs|];
    assert gs != [];
    var first := Guess(v, gs[0].0, gs[0].1);
    assert (gs + more)[0] == gs[0];
    if first.outcome == Continue {
      assert (gs + more)[1..] == gs[1..] + more;
      StopsForGood(first.view, gs[1..], more);
    }
  }

  /** Unguessed cells of a ship are on the board, so guessing them never indexes from
      the end of a row. */
  lemma AfloatIndexable(v: View, s: Ship, gs: seq<Pos>)
    requires Shaped(v)
    requires forall i :: 0 <= i < |gs| ==> gs[i] in Afloat(v, s)
    ensures AllIndexable(gs)
  {
    forall i | 0 <= i < |gs|
      ensures Indexable(gs[i].0, gs[i].1)
    {
      assert gs[i] in Afloat(v, s);
    }
  }

  /** Hitting a ship on as many distinct unguessed cells as it has hits left reports
      "hit" for every guess but the last, and "<kind> sunk" for the last. */
  lemma {:induction false} HitsUntilSunk(v: View, s: Ship, gs: seq<Pos>)
    requires Shaped(v) && s in v.hits && s.kind in v.surviving
    requires |gs| >= 1 && v.hits[s] + |gs| == s.Size()
    requires forall i :: 0 <= i < |gs| ==> gs[i] in Afloat(v, s)
    requires forall i, j :: 0 <= i < j < |gs| ==> gs[i] != gs[j]
    ensures AllIndexable(gs)
    ensures var r := Play(v, gs);
      |r.lines| >= |gs| &&
      (forall i :: 0 <= i < |gs| - 1 ==> r.lines[i] == "hit") &&
      r.lines[|gs| - 1] == SunkLine(s.kind) &&
      r.view.surviving == v.surviving - {s.kind} &&
      (r.outcome == GameOver <==> v.surviving == {s.kind})
    decreases |gs|
  {
    var p := gs[0];
    assert p in Afloat(v, s);
    AfloatIndexable(v, s, gs);
    if |gs| == 1 {
      LastHit(v, s, p);
    } else {
      var w := Struck(v, p);
      MoreHits(v, s, p);
      var rest := gs[1..];
      forall i | 0 <= i < |rest|
        ensures rest[i] in Afloat(w, s)
      {
        assert gs[i + 1] in Afloat(v, s) && gs[i + 1] != p;
      }
      HitsUntilSunk(w, s, rest);
      var r := Play(w, rest);
      var whole := Play(v, gs);
      PlayFirst(v, gs);
      assert whole.lines == ["hit"] + r.lines;
      assert whole.lines[|gs| - 1] == r.lines[|rest| - 1];
      forall i | 0 <= i < |gs| - 1
        ensures whole.lines[i] == "hit"
      {
        if i > 0 {
          assert whole.lines[i] == r.lines[i - 1];
        }
      }
    }
  }

  /** The guess on the last unguessed cell of a ship with one hit to go sinks it. */
  lemma LastHit(v: View, s: Ship, p: Pos)
    requires Shaped(v) && s in v.hits && s.kind in v.surviving
    requires p in Afloat(v, s) && v.hits[s] + 1 == s.Size()
    ensures AllIndexable([p])
    ensures var r := Play(v, [p]);
      |r.lines| >= 1 && r.lines[0] == SunkLine(s.kind) &&
      r.view.surviving == v.surviving - {s.kind} &&
      (r.outcome == GameOver <==> v.surviving == {s.kind})
  {
    SinkingHit(v, p.0, p.1);
    var first := Guess(v, p.0, p.1);
    if first.outcome == Continue {
      assert Play(v, [p]) == Step(first.view, first.lines + [], Continue);
    }
  }

  /** A guess on an unguessed cell of a ship with more than one hit to go reports
      "hit" and leaves the ship one unguessed cell fewer. */
  lemma MoreHits(v: View, s: Ship, p: Pos)
    requires Shaped(v) && s in v.hits
    requires p in Afloat(v, s) && v.hits[s] + 1 < s.Size()
    ensures Indexable(p.0, p.1)
    ensures Guess(v, p.0, p.1) == Step(Struck(v, p), ["hit"], Continue)
    ensures Shaped(Struck(v, p)) && s in Struck(v, p).hits
    ensures Struck(v, p).hits[s] == v.hits[s] + 1 && Struck(v, p).surviving == v.surviving
    ensures Afloat(Struck(v, p), s) == Afloat(v, s) - {p}
  {
    assert Guess(v, p.0, p.1).view == Struck(v, p);
  }

  /** A guessed cell without a ship stays so through any run of guesses. */
  lemma {:induction false} EmptyGuessedStays(v: View, p: Pos, gs: seq<Pos>)
    requires Shaped(v) && AllIndexable(gs) && p in v.cells
    requires v.cells[p].ship == null && v.cells[p].guessed
    ensures p in Play(v, gs).view.cells
    ensures Play(v, gs).view.cells[p].ship == null && Play(v, gs).view.cells[p].guessed
    decreases |gs|
  {
    if gs != [] {
      var first := Guess(v, gs[0].0, gs[0].1);
      if first.outcome == Continue {
        EmptyGuessedStays(first.view, p, gs[1..]);
      }
    }
  }

  /** A cell without a ship reports "miss" the first time it is guessed and "miss
      (again)" whenever it is guessed after that, whatever was guessed in between. */
  lemma MissThenMissAgain(v: View, x: int, y: int, between: seq<Pos>)
    requires Shaped(v) && OnBoard(x, y) && AllIndexable(between)
    requires v.cells[(x, y)].ship == null && !v.cells[(x, y)].guessed
    ensures Guess(v, x, y).lines == ["miss"]
    ensures Guess(Play(Guess(v, x, y).view, between).view, x, y).lines == ["miss (again)"]
  {
    EmptyGuessedStays(Guess(v, x, y).view, (x, y), between);
  }

  /** The cell whose hit sinks a ship reports "miss (again)", not "hit (again)", when
      guessed later, because sinking cleared its ship reference. */
  lemma SinkingCellReadsAsMiss(v: View, x: int, y: int, between: seq<Pos>)
    requires WellFormed(v) && OnBoard(x, y) && AllIndexable(between)
    requires v.cells[(x, y)].ship != null && !v.cells[(x, y)].guessed
    requires v.hits[v.cells[(x, y)].ship] + 1 == v.cells[(x, y)].ship.Size()
    ensures Guess(Play(Guess(v, x, y).view, between).view, x, y).lines == ["miss (again)"]
  {
    EmptyGuessedStays(Guess(v, x, y).view, (x, y), between);
  }
}
