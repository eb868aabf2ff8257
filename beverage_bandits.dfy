/** src/bin/15.rs: the parts of the elf-and-goblin combat that exist in the code — units and
    their death, reading order, turn order, the end-of-combat test, the squares next to living
    units, the outcome formula and the units the map parser creates. */
module BeverageBandits {
  import opened Options
  import opened Coords

  type String = seq<char>

  datatype Unit = Unit(isElf: bool, hitPoint: int, attackPower: nat, position: Coord)

  /** `Unit::is_dead`. */
  predicate IsDead(u: Unit)
  {
    u.hitPoint <= 0
  }

  // ---------------------------------------------------------------------------
  // Reading order

  datatype Ordering = Less | Equal | Greater

  /** `Ord::cmp` on integers. */
  function CompareInt(a: int, b: int): Ordering
  {
    if a < b then Less else if a == b then Equal else Greater
  }

  /** `a` comes strictly before `b` when the grid is read top to bottom, left to right. */
  predicate ReadsBefore(a: Coord, b: Coord)
  {
    a.y < b.y || (a.y == b.y && a.x < b.x)
  }

  /** `cmp_reading_order`: rows first, then columns. */
  function CmpReadingOrder(p1: Coord, p2: Coord): (r: Ordering)
    ensures r == Equal <==> p1 == p2
    ensures r == Less <==> ReadsBefore(p1, p2)
    ensures r == Greater <==> ReadsBefore(p2, p1)
  {
    if p1.y != p2.y then CompareInt(p1.y, p2.y) else CompareInt(p1.x, p2.x)
  }

  function Flip(o: Ordering): Ordering
  {
    match o
    case Less => Greater
    case Equal => Equal
    case Greater => Less
  }

  /** The comparator is antisymmetric and transitive, so a total order. */
  lemma CmpReadingOrderIsTotalOrder(a: Coord, b: Coord, c: Coord)
    ensures CmpReadingOrder(a, b) == Flip(CmpReadingOrder(b, a))
    ensures CmpReadingOrder(a, b) == Less && CmpReadingOrder(b, c) == Less ==> CmpReadingOrder(a, c) == Less
  {
  }

  /** On a grid `width` columns wide, reading order is the order of the row-major index. */
  lemma ReadingOrderIsRowMajor(a: Coord, b: Coord, width: int)
    requires 0 <= a.x < width && 0 <= b.x < width
    ensures ReadsBefore(a, b) <==> a.y * width + a.x < b.y * width + b.x
  {
    if a.y < b.y {
      RowsApart(a.y, b.y, width);
    } else if a.y > b.y {
      RowsApart(b.y, a.y, width);
    }
  }

  lemma RowsApart(y1: int, y2: int, width: int)
    requires y1 < y2 && width > 0
    ensures y1 * width + width <= y2 * width
  {
    var d := y2 - y1;
    assert y2 * width == y1 * width + d * width;
    assert d * width >= width by {
      assert d * width == (d - 1) * width + width;
      assert (d - 1) * width >= 0;
    }
  }

  // ---------------------------------------------------------------------------
  // Turn order

  /** The order `sort_by` puts the pairs of `units.iter().enumerate()` in: by reading order of
      the positions, and, since the sort is stable, by index between equal positions. */
  predicate TurnBefore(units: seq<Unit>, i: nat, j: nat)
    requires i < |units| && j < |units|
  {
    ReadsBefore(units[i].position, units[j].position)
      || (units[i].position == units[j].position && i <= j)
  }

  lemma TurnBeforeTransitive(units: seq<Unit>, i: nat, j: nat, k: nat)
    requires i < |units| && j < |units| && k < |units|
    requires TurnBefore(units, i, j) && TurnBefore(units, j, k)
    ensures TurnBefore(units, i, k)
  {
  }

  /** The indices `0..n` in increasing order, the order of `iter().enumerate()`. */
  function Indices(n: nat): (s: seq<nat>)
    ensures |s| == n && forall k :: 0 <= k < n ==> s[k] == k
  {
    seq(n, k => k)
  }

  predicate InTurnOrder(units: seq<Unit>, order: seq<nat>)
  {
    (forall k :: 0 <= k < |order| ==> order[k] < |units|)
      && forall p, q :: 0 <= p < q < |order| ==> TurnBefore(units, order[p], order[q])
  }

  /** `get_combat_order`: the unit indices, dead units included, sorted in place by reading
      order of the positions with ties kept in index order. The result is a permutation of
      `0..|units|`. */
  method GetCombatOrder(units: seq<Unit>) returns (order: seq<nat>)
    ensures multiset(order) == multiset(Indices(|units|))
    ensures InTurnOrder(units, order)
  {
    var n := |units|;
    var a := new nat[n](k => k);
    assert a[..] == Indices(n);
    var i := 0;
    while i < n
      invariant 0 <= i <= n
      invariant multiset(a[..]) == multiset(Indices(n))
      invariant IndicesBelow(a[..], n)
      invariant forall p, q :: 0 <= p < q < i ==> TurnBefore(units, a[p], a[q])
    {
      InsertLast(units, a, i);
      i := i + 1;
    }
    order := a[..];
  }

  predicate IndicesBelow(s: seq<nat>, n: nat)
  {
    forall k :: 0 <= k < |s| ==> s[k] < n
  }

  /** The invariant of one insertion pass: `s[..i + 1]` is in turn order except around the
      moving entry at `j`, which comes before everything to its right. */
  predicate Inserting(units: seq<Unit>, s: seq<nat>, i: nat, j: nat)
  {
    j <= i < |s| && IndicesBelow(s, |units|)
    && (forall p, q :: 0 <= p < q <= i && p != j && q != j ==> TurnBefore(units, s[p], s[q]))
    && (forall q :: j < q <= i ==> TurnBefore(units, s[j], s[q]))
  }

  lemma InsertingStep(units: seq<Unit>, s: seq<nat>, i: nat, j: nat)
    requires Inserting(units, s, i, j) && 0 < j && !TurnBefore(units, s[j - 1], s[j])
    ensures Inserting(units, s[j - 1 := s[j]][j := s[j - 1]], i, j - 1)
  {
  }

  lemma InsertingDone(units: seq<Unit>, s: seq<nat>, i: nat, j: nat)
    requires Inserting(units, s, i, j) && (j == 0 || TurnBefore(units, s[j - 1], s[j]))
    ensures forall p, q :: 0 <= p < q <= i ==> TurnBefore(units, s[p], s[q])
  {
    forall p, q | 0 <= p < q <= i
      ensures TurnBefore(units, s[p], s[q])
    {
      if q == j && p < j {
        TurnBeforeTransitive(units, s[p], s[j - 1], s[j]);
      }
    }
  }

  /** One pass of the insertion sort: `a[i]` moves left past every index that comes after it
      in turn order, leaving `a[..i + 1]` sorted and the contents permuted. */
  method InsertLast(units: seq<Unit>, a: array<nat>, i: nat)
    requires a.Length == |units| && i < a.Length
    requires IndicesBelow(a[..], a.Length)
    requires forall p, q :: 0 <= p < q < i ==> TurnBefore(units, a[p], a[q])
    modifies a
    ensures multiset(a[..]) == multiset(old(a[..]))
    ensures IndicesBelow(a[..], a.Length)
    ensures forall p, q :: 0 <= p < q <= i ==> TurnBefore(units, a[p], a[q])
    ensures a[i + 1..] == old(a[i + 1..])
  {
    var j: nat := i;
    assert Inserting(units, a[..], i, j);
    while j > 0 && !TurnBefore(units, a[j - 1], a[j])
      invariant Inserting(units, a[..], i, j)
      invariant multiset(a[..]) == multiset(old(a[..]))
      invariant a[i + 1..] == old(a[i + 1..])
    {
      InsertingStep(units, a[..], i, j);
      a[j - 1], a[j] := a[j], a[j - 1];
      j := j - 1;
    }
    InsertingDone(units, a[..], i, j);
  }

  // ---------------------------------------------------------------------------
  // End of combat and outcome

  /** The units belonging to one side, in their order. */
  function Side(units: seq<Unit>, elves: bool): (r: seq<Unit>)
    ensures forall k :: 0 <= k < |r| ==> r[k].isElf == elves && r[k] in units
    ensures forall k :: 0 <= k < |units| && units[k].isElf == elves ==> units[k] in r
  {
    if units == [] then []
    else (if units[0].isElf == elves then [units[0]] else []) + Side(units[1..], elves)
  }

  function AllDead(us: seq<Unit>): bool
  {
    us == [] || (IsDead(us[0]) && AllDead(us[1..]))
  }

  /** `combat_is_over`: every elf is dead or every goblin is dead; a side without units counts
      as all dead. */
  function CombatIsOver(units: seq<Unit>): (r: bool)
    ensures r <==> ((forall k :: 0 <= k < |units| && units[k].isElf ==> IsDead(units[k]))
                    || (forall k :: 0 <= k < |units| && !units[k].isElf ==> IsDead(units[k])))
  {
    AllDeadMeans(Side(units, true));
    AllDeadMeans(Side(units, false));
    AllDead(Side(units, true)) || AllDead(Side(units, false))
  }

  lemma {:induction false} AllDeadMeans(us: seq<Unit>)
    ensures AllDead(us) <==> forall k :: 0 <= k < |us| ==> IsDead(us[k])
  {
    if us != [] {
      AllDeadMeans(us[1..]);
      assert forall k :: 1 <= k < |us| ==> us[k] == us[1..][k - 1];
    }
  }

  /** How many living units one side still has. */
  function LivingCount(units: seq<Unit>, elves: bool): (n: nat)
    ensures n <= |units|
  {
    if units == [] then 0
    else (if units[0].isElf == elves && !IsDead(units[0]) then 1 else 0) + LivingCount(units[1..], elves)
  }

  lemma {:induction false} LivingCountZero(units: seq<Unit>, elves: bool)
    ensures LivingCount(units, elves) == 0
            <==> forall k :: 0 <= k < |units| && units[k].isElf == elves ==> IsDead(units[k])
  {
    if units != [] {
      LivingCountZero(units[1..], elves);
      assert forall k :: 1 <= k < |units| ==> units[k] == units[1..][k - 1];
    }
  }

  /** Combat is over exactly when one side has no living unit left. */
  lemma CombatIsOverCounts(units: seq<Unit>)
    ensures CombatIsOver(units) <==> LivingCount(units, true) == 0 || LivingCount(units, false) == 0
  {
    LivingCountZero(units, true);
    LivingCountZero(units, false);
  }

  /** The hit points left among living units, `filter(!is_dead).map(hit_point).sum()`. */
  function LivingHitPoints(units: seq<Unit>): (s: nat)
  {
    if units == [] then 0
    else (if IsDead(units[0]) then 0 else units[0].hitPoint) + LivingHitPoints(units[1..])
  }

  /** The hit-point sum is positive exactly when some unit is alive. */
  lemma {:induction false} LivingHitPointsPositive(units: seq<Unit>)
    ensures LivingHitPoints(units) > 0 <==> exists k :: 0 <= k < |units| && !IsDead(units[k])
  {
    if units != [] {
      LivingHitPointsPositive(units[1..]);
      assert forall k :: 1 <= k < |units| ==> units[k] == units[1..][k - 1];
      if !IsDead(units[0]) {
        assert !IsDead(units[0]);
      } else {
        assert forall k :: 0 <= k < |units[1..]| ==> units[1..][k] == units[k + 1];
      }
    }
  }

  /** The outcome formula: completed rounds times the hit points left among living units. */
  function Outcome(rounds: nat, units: seq<Unit>): (r: nat)
    ensures r == 0 <==> rounds == 0 || forall k :: 0 <= k < |units| ==> IsDead(units[k])
  {
    LivingHitPointsPositive(units);
    rounds * LivingHitPoints(units)
  }

  /** `combat_outcome` as the code stands: a round that starts with both sides alive reaches
      the first living unit's path search, which is `todo!()` and panics (`None`); otherwise no
      round is played and the outcome is taken after 0 rounds. */
  function CombatOutcome(units: seq<Unit>): (r: Option<nat>)
    ensures r.Some? <==> CombatIsOver(units)
    ensures r.Some? ==> r.value == 0
  {
    if CombatIsOver(units) then Some(Outcome(0, units)) else None
  }

  // ---------------------------------------------------------------------------
  // Squares in range

  /** `get_adjacent_position`: the squares above, below, left and right, in that order. */
  function GetAdjacentPosition(c: Coord): (r: seq<Coord>)
    ensures |r| == 4
    ensures r[0].x == c.x && r[0].y < c.y && r[1].x == c.x && r[1].y > c.y
    ensures r[2].y == c.y && r[2].x < c.x && r[3].y == c.y && r[3].x > c.x
  {
    [Add(c, Coord(0, -1)), Add(c, Coord(0, 1)), Add(c, Coord(-1, 0)), Add(c, Coord(1, 0))]
  }

  /** The four squares are exactly those one orthogonal step away. */
  lemma AdjacentAreNeighbours(c: Coord, q: Coord)
    ensures q in GetAdjacentPosition(c) <==> Manhattan(q, c) == 1
  {
    if Manhattan(q, c) == 1 {
      if q.x == c.x {
        assert q == Add(c, Coord(0, -1)) || q == Add(c, Coord(0, 1));
      } else {
        assert q.y == c.y;
        assert q == Add(c, Coord(-1, 0)) || q == Add(c, Coord(1, 0));
      }
    }
  }

  /** Some unit of `units`, dead or alive, stands on `q`. */
  predicate Occupied(units: seq<Unit>, q: Coord)
  {
    exists k :: 0 <= k < |units| && units[k].position == q
  }

  /** The neighbours of the living units among `us`, concatenated in unit order. */
  function LivingNeighbours(us: seq<Unit>): seq<Coord>
  {
    if us == [] then []
    else (if IsDead(us[0]) then [] else GetAdjacentPosition(us[0].position)) + LivingNeighbours(us[1..])
  }

  /** The squares of `cs` that are neither a wall nor under a unit, in order. */
  function FreeSquares(cs: seq<Coord>, units: seq<Unit>, walls: set<Coord>): (r: seq<Coord>)
    ensures forall q :: q in r <==> q in cs && q !in walls && !Occupied(units, q)
  {
    if cs == [] then []
    else
      var rest := FreeSquares(cs[1..], units, walls);
      assert forall q :: q in cs <==> q == cs[0] || q in cs[1..];
      (if cs[0] !in walls && !Occupied(units, cs[0]) then [cs[0]] else []) + rest
  }

  /** `get_all_adjacent_square`. `walls` is the parser's set of `#` squares. */
  function GetAllAdjacentSquare(units: seq<Unit>, walls: set<Coord>): seq<Coord>
  {
    FreeSquares(LivingNeighbours(units), units, walls)
  }

  lemma {:induction false} LivingNeighboursMembers(us: seq<Unit>, q: Coord)
    ensures q in LivingNeighbours(us)
            <==> exists k :: 0 <= k < |us| && !IsDead(us[k]) && Manhattan(q, us[k].position) == 1
  {
    if us != [] {
      LivingNeighboursMembers(us[1..], q);
      AdjacentAreNeighbours(us[0].position, q);
      assert forall k :: 1 <= k < |us| ==> us[k] == us[1..][k - 1];
      if exists k :: 0 <= k < |us| && !IsDead(us[k]) && Manhattan(q, us[k].position) == 1 {
        var k :| 0 <= k < |us| && !IsDead(us[k]) && Manhattan(q, us[k].position) == 1;
        if k > 0 {
          assert us[1..][k - 1] == us[k];
        }
      }
    }
  }

  /** A square is returned exactly when it is one step from a living unit of either side, is
      not a wall, and no unit, dead or alive, stands on it. */
  lemma AdjacentSquares(units: seq<Unit>, walls: set<Coord>, q: Coord)
    ensures q in GetAllAdjacentSquare(units, walls)
            <==> (exists k :: 0 <= k < |units| && !IsDead(units[k]) && Manhattan(q, units[k].position) == 1)
                 && q !in walls && !Occupied(units, q)
  {
    LivingNeighboursMembers(units, q);
  }

  // ---------------------------------------------------------------------------
  // Parsing the map

  /** `map[y][x] == c` for the square `q` of the map given as its lines. */
  predicate GlyphAt(lines: seq<String>, q: Coord, c: char)
  {
    0 <= q.y < |lines| && 0 <= q.x < |lines[q.y]| && lines[q.y][q.x] == c
  }

  /** The unit the parser creates for a glyph other than `#` and `.`. */
  function NewUnit(c: char, at: Coord): Unit
  {
    Unit(c == 'E', 200, 3, at)
  }

  predicate IsUnitGlyph(c: char) { c != '#' && c != '.' }

  /** The units of row `y`, left to right. */
  function RowUnits(line: String, y: int): seq<Unit>
  {
    if line == [] then []
    else
      var x := |line| - 1;
      RowUnits(line[..x], y) + (if IsUnitGlyph(line[x]) then [NewUnit(line[x], Coord(x, y))] else [])
  }

  /** The units of the whole map in reading order, as the nested loops push them. */
  function GridUnits(lines: seq<String>): seq<Unit>
  {
    if lines == [] then []
    else GridUnits(lines[..|lines| - 1]) + RowUnits(lines[|lines| - 1], |lines| - 1)
  }

  /** The unit construction of `parse_input`, over the map's lines: `#` squares become walls,
      every other glyph except `.` a unit. */
  method ParseUnits(lines: seq<String>) returns (units: seq<Unit>, walls: set<Coord>)
    ensures units == GridUnits(lines)
    ensures forall q :: q in walls <==> GlyphAt(lines, q, '#')
  {
    units := [];
    walls := {};
    var y := 0;
    while y < |lines|
      invariant 0 <= y <= |lines|
      invariant units == GridUnits(lines[..y])
      invariant forall q :: q in walls <==> GlyphAt(lines, q, '#') && q.y < y
    {
      var line := lines[y];
      var x := 0;
      while x < |line|
        invariant 0 <= x <= |line|
        invariant units == GridUnits(lines[..y]) + RowUnits(line[..x], y)
        invariant forall q :: q in walls <==> GlyphAt(lines, q, '#') && (q.y < y || (q.y == y && q.x < x))
      {
        var c := line[x];
        var pos := Coord(x, y);
        assert line[..x + 1][..x] == line[..x];
        if c == '#' {
          walls := walls + {pos};
        } else if c != '.' {
          units := units + [NewUnit(c, pos)];
        }
        x := x + 1;
      }
      assert line[..x] == line;
      assert lines[..y + 1][..y] == lines[..y];
      y := y + 1;
    }
    assert lines[..y] == lines;
  }

  /** Every unit of row `y` is a fresh unit (200 hit points, attack 3) standing on its glyph,
      an elf exactly when the glyph is `E`. */
  lemma {:induction false} RowUnitsFresh(line: String, y: int, k: nat)
    requires k < |RowUnits(line, y)|
    ensures var u := RowUnits(line, y)[k];
            u.position.y == y && 0 <= u.position.x < |line|
            && IsUnitGlyph(line[u.position.x]) && u == NewUnit(line[u.position.x], u.position)
  {
    var x := |line| - 1;
    var init := RowUnits(line[..x], y);
    if k < |init| {
      RowUnitsFresh(line[..x], y, k);
    }
  }

  lemma {:induction false} GridUnitsFresh(lines: seq<String>, k: nat)
    requires k < |GridUnits(lines)|
    ensures var u := GridUnits(lines)[k];
            0 <= u.position.y < |lines| && 0 <= u.position.x < |lines[u.position.y]|
            && IsUnitGlyph(lines[u.position.y][u.position.x])
            && u == NewUnit(lines[u.position.y][u.position.x], u.position)
  {
    var last := |lines| - 1;
    var init := GridUnits(lines[..last]);
    if k < |init| {
      GridUnitsFresh(lines[..last], k);
    } else {
      RowUnitsFresh(lines[last], last, k - |init|);
    }
  }

  /** The parsed units are all alive, with 200 hit points and attack power 3; each stands on
      a glyph other than `#` and `.`, and is an elf exactly when that glyph is `E`. */
  lemma ParsedUnits(lines: seq<String>, k: nat)
    requires k < |GridUnits(lines)|
    ensures var u := GridUnits(lines)[k];
            u.hitPoint == 200 && u.attackPower == 3 && !IsDead(u)
            && !GlyphAt(lines, u.position, '#') && !GlyphAt(lines, u.position, '.')
            && (u.isElf <==> GlyphAt(lines, u.position, 'E'))
  {
    GridUnitsFresh(lines, k);
  }

  lemma {:induction false} RowUnitsComplete(line: String, y: int, x: int)
    requires 0 <= x < |line| && IsUnitGlyph(line[x])
    ensures NewUnit(line[x], Coord(x, y)) in RowUnits(line, y)
    decreases |line|
  {
    var last := |line| - 1;
    if x < last {
      assert line[..last][x] == line[x];
      RowUnitsComplete(line[..last], y, x);
    }
  }

  lemma {:induction false} GridUnitsComplete(lines: seq<String>, q: Coord)
    requires 0 <= q.y < |lines| && 0 <= q.x < |lines[q.y]| && IsUnitGlyph(lines[q.y][q.x])
    ensures NewUnit(lines[q.y][q.x], q) in GridUnits(lines)
    decreases |lines|
  {
    var last := |lines| - 1;
    if q.y < last {
      assert lines[..last][q.y] == lines[q.y];
      GridUnitsComplete(lines[..last], q);
    } else {
      RowUnitsComplete(lines[last], last, q.x);
    }
  }

  /** Conversely, every glyph other than `#` and `.` on the map gives a fresh unit standing on
      it, so the parsed units are exactly the map's unit glyphs. */
  lemma ParsedUnitsComplete(lines: seq<String>, q: Coord, c: char)
    requires GlyphAt(lines, q, c) && c != '#' && c != '.'
    ensures NewUnit(c, q) in GridUnits(lines)
    ensures exists k :: 0 <= k < |GridUnits(lines)| && GridUnits(lines)[k].position == q
                        && GridUnits(lines)[k].hitPoint == 200 && (GridUnits(lines)[k].isElf <==> c == 'E')
  {
    GridUnitsComplete(lines, q);
  }
}
