/** src/bin/11.rs: the fuel-cell grid. Every cell of a square grid gets a power level
    computed from its coordinates and a serial number; the search walks every top-left corner
    and grows a square from it one row and one column at a time, keeping the first square with
    the largest total power. */
module ChronalCharge {
  import opened Coords
  import opened Text

  // ---------------------------------------------------------------------------
  // Power levels

  /** Rust's `%` on `i32`: the remainder takes the sign of the dividend. */
  function RemTrunc10(a: int): (r: int)
    ensures a >= 0 ==> r == a % 10
    ensures -10 < r < 10 && (a - r) % 10 == 0
    ensures a < 0 ==> r <= 0
  {
    if a >= 0 then a % 10 else -((-a) % 10)
  }

  /** `get_power_level`: the rack ID is `x + 10`; multiply by `y`, add the serial number,
      multiply by the rack ID again, keep the hundreds digit and subtract 5. Rust's
      `div_euclid(100)` is Dafny's `/`. */
  function PowerLevel(x: int, y: int, serial: nat): (r: int)
    ensures -14 <= r <= 4
  {
    var rackId := x + 10;
    var power := (rackId * y + serial) * rackId;
    RemTrunc10(power / 100) - 5
  }

  /** The hundreds digit of `n` as it is printed in decimal, 0 when the numeral is shorter. */
  function HundredsDigit(n: nat): nat
  {
    var s := ShowNat(n);
    if |s| >= 3 then DigitValue(s[|s| - 3]) else 0
  }

  lemma ShowNatLast(n: nat)
    ensures var s := ShowNat(n); DigitValue(s[|s| - 1]) == n % 10
    ensures n < 10 <==> |ShowNat(n)| == 1
  {
  }

  lemma {:induction false} ShowNatHundreds(n: nat)
    ensures HundredsDigit(n) == (n / 100) % 10
  {
    var s := ShowNat(n);
    if n < 10 {
      assert |s| == 1;
    } else {
      var t := ShowNat(n / 10);
      assert s == t + [DigitChar(n % 10)];
      if n < 100 {
        ShowNatLast(n / 10);
        assert |s| == 2;
      } else {
        assert n / 10 >= 10;
        var u := ShowNat(n / 10 / 10);
        assert t == u + [DigitChar(n / 10 % 10)];
        assert s[|s| - 3] == u[|u| - 1];
        ShowNatLast(n / 10 / 10);
        assert n / 10 / 10 == n / 100;
      }
    }
  }

  /** On the grid, where `x` and `y` are at least 1, the intermediate value is never negative,
      the level is the hundreds digit of its decimal numeral minus 5, and so lies in [-5, 4]. */
  lemma PowerLevelIsHundredsDigit(x: int, y: int, serial: nat)
    requires x >= 1 && y >= 1
    ensures ((x + 10) * y + serial) * (x + 10) >= 0
    ensures PowerLevel(x, y, serial) == HundredsDigit(((x + 10) * y + serial) * (x + 10)) - 5
    ensures -5 <= PowerLevel(x, y, serial) <= 4
  {
    var rackId := x + 10;
    assert rackId * y >= 0;
    var power := (rackId * y + serial) * rackId;
    assert power >= 0;
    assert power / 100 >= 0;
    ShowNatHundreds(power);
  }

  // ---------------------------------------------------------------------------
  // The grid

  /** The cells `generate_map` fills: both coordinates in `1..=size`. */
  predicate OnGrid(c: Coord, size: int)
  {
    1 <= c.x <= size && 1 <= c.y <= size
  }

  /** `generate_map`: the nested loops insert every cell of the grid with its power level. */
  method GenerateMap(serial: nat, size: int) returns (m: map<Coord, int>)
    ensures forall c :: c in m <==> OnGrid(c, size)
    ensures forall c :: c in m ==> m[c] == PowerLevel(c.x, c.y, serial)
  {
    m := map[];
    var x := 1;
    while x <= size
      invariant x <= size + 1 || size < 1
      invariant forall c :: c in m <==> 1 <= c.x < x && 1 <= c.y <= size
      invariant forall c :: c in m ==> m[c] == PowerLevel(c.x, c.y, serial)
    {
      var y := 1;
      while y <= size
        invariant y <= size + 1
        invariant forall c :: c in m <==> (1 <= c.x < x && 1 <= c.y <= size) || (c.x == x && 1 <= c.y < y)
        invariant forall c :: c in m ==> m[c] == PowerLevel(c.x, c.y, serial)
      {
        m := m[Coord(x, y) := PowerLevel(x, y, serial)];
        y := y + 1;
      }
      x := x + 1;
    }
  }

  /** `map.get(&(x, y)).unwrap_or(&0)`: a cell outside the map counts as 0. */
  function Cell(m: map<Coord, int>, x: int, y: int): int
  {
    if Coord(x, y) in m then m[Coord(x, y)] else 0
  }

  /** The `len` cells of row `y` starting at column `x`. */
  function RowSum(m: map<Coord, int>, x: int, y: int, len: nat): int
  {
    if len == 0 then 0 else RowSum(m, x, y, len - 1) + Cell(m, x + len - 1, y)
  }

  /** The `len` cells of column `x` starting at row `y`. */
  function ColSum(m: map<Coord, int>, x: int, y: int, len: nat): int
  {
    if len == 0 then 0 else ColSum(m, x, y, len - 1) + Cell(m, x, y + len - 1)
  }

  /** The total of the `w` by `h` rectangle with top-left corner `(x, y)`, row by row. */
  function RectSum(m: map<Coord, int>, x: int, y: int, w: nat, h: nat): int
  {
    if h == 0 then 0 else RectSum(m, x, y, w, h - 1) + RowSum(m, x, y + h - 1, w)
  }

  /** The same rectangle added up column by column. */
  function RectSumByColumns(m: map<Coord, int>, x: int, y: int, w: nat, h: nat): int
  {
    if w == 0 then 0 else RectSumByColumns(m, x, y, w - 1, h) + ColSum(m, x + w - 1, y, h)
  }

  /** The total power of the square of side `side` with top-left corner `(x, y)`. */
  function SquareSum(m: map<Coord, int>, x: int, y: int, side: nat): int
  {
    RectSum(m, x, y, side, side)
  }

  /** Widening a rectangle by one column adds that column. */
  lemma {:induction false} RectWiden(m: map<Coord, int>, x: int, y: int, w: nat, h: nat)
    ensures RectSum(m, x, y, w + 1, h) == RectSum(m, x, y, w, h) + ColSum(m, x + w, y, h)
  {
    if h > 0 {
      RectWiden(m, x, y, w, h - 1);
    }
  }

  /** Adding up by rows or by columns gives the same total. */
  lemma {:induction false} RectSumEitherWay(m: map<Coord, int>, x: int, y: int, w: nat, h: nat)
    ensures RectSum(m, x, y, w, h) == RectSumByColumns(m, x, y, w, h)
  {
    if w == 0 {
      assert RectSum(m, x, y, 0, h) == 0 by { RectOfNoColumns(m, x, y, h); }
    } else {
      RectSumEitherWay(m, x, y, w - 1, h);
      RectWiden(m, x, y, w - 1, h);
    }
  }

  lemma {:induction false} RectOfNoColumns(m: map<Coord, int>, x: int, y: int, h: nat)
    ensures RectSum(m, x, y, 0, h) == 0
  {
    if h > 0 {
      RectOfNoColumns(m, x, y, h - 1);
    }
  }

  /** The update of the innermost loop: the square of side `k + 1` is the square of side `k`
      plus its new bottom row and new right column, minus the corner both contain. */
  lemma SquareGrow(m: map<Coord, int>, x: int, y: int, k: nat)
    ensures SquareSum(m, x, y, k + 1)
            == SquareSum(m, x, y, k) + RowSum(m, x, y + k, k + 1) + ColSum(m, x + k, y, k + 1) - Cell(m, x + k, y + k)
  {
    RectWiden(m, x, y, k, k);
  }

  // ---------------------------------------------------------------------------
  // The search of `find_best_square`

  /** A square as the loops visit it: its top-left corner and the loop variable `size`; its
      side is `size + 1`. */
  datatype Square = Square(x: nat, y: nat, size: nat)

  /** `max_size`: 2 in part one (sides 1, 2 and 3), and in part two the largest size that keeps
      the square inside the grid. */
  function MaxSize(isPart2: bool, n: nat, x: nat, y: nat): nat
    requires x <= n && y <= n
  {
    if !isPart2 then 2 else if n - x <= n - y then n - x else n - y
  }

  /** The squares the loops visit. */
  predicate IsCandidate(isPart2: bool, n: nat, c: Square)
  {
    1 <= c.x <= n && 1 <= c.y <= n && c.size <= MaxSize(isPart2, n, c.x, c.y)
  }

  function Score(m: map<Coord, int>, c: Square): int
  {
    SquareSum(m, c.x, c.y, c.size + 1)
  }

  /** The order of the loops: by `x`, then by `y`, then by `size`. */
  predicate Before(c: Square, d: Square)
  {
    c.x < d.x || (c.x == d.x && (c.y < d.y || (c.y == d.y && c.size < d.size)))
  }

  /** The answer `(x, y, side)` is right for the squares visited before `upto`, starting from the
      initial `(1, 1, 0)` with score -100 and replacing it only on a strictly larger score. */
  ghost predicate BestAmong(m: map<Coord, int>, isPart2: bool, n: nat, upto: Square, bestX: nat, bestY: nat, bestSide: nat, best: int)
  {
    (forall c :: IsCandidate(isPart2, n, c) && Before(c, upto) ==> Score(m, c) <= best)
    && if bestSide == 0 then bestX == 1 && bestY == 1 && best == -100
       else
         var b := Square(bestX, bestY, bestSide - 1);
         IsCandidate(isPart2, n, b) && Before(b, upto) && Score(m, b) == best && best > -100
         && forall c :: IsCandidate(isPart2, n, c) && Before(c, b) ==> Score(m, c) < best
  }

  /** What `find_best_square` returns: `(1, 1, 0)` when no square scores above -100, otherwise the
      first square in loop order with the largest score, with its side. */
  ghost predicate IsAnswer(m: map<Coord, int>, isPart2: bool, n: nat, bestX: nat, bestY: nat, bestSide: nat)
  {
    if bestSide == 0 then bestX == 1 && bestY == 1 && forall c :: IsCandidate(isPart2, n, c) ==> Score(m, c) <= -100
    else
      var b := Square(bestX, bestY, bestSide - 1);
      IsCandidate(isPart2, n, b) && Score(m, b) > -100
      && (forall c :: IsCandidate(isPart2, n, c) ==> Score(m, c) <= Score(m, b))
      && forall c :: IsCandidate(isPart2, n, c) && Before(c, b) ==> Score(m, c) < Score(m, b)
  }

  /** Before the first square nothing is visited and the initial answer stands. */
  lemma BestAmongStart(m: map<Coord, int>, isPart2: bool, n: nat)
    ensures BestAmong(m, isPart2, n, Square(1, 1, 0), 1, 1, 0, -100)
  {
  }

  /** Visiting one more square keeps the running answer right. */
  lemma BestAmongImproves(m: map<Coord, int>, isPart2: bool, n: nat, c: Square, bestX: nat, bestY: nat, bestSide: nat, best: int)
    requires IsCandidate(isPart2, n, c) && BestAmong(m, isPart2, n, c, bestX, bestY, bestSide, best)
    requires Score(m, c) > best
    ensures BestAmong(m, isPart2, n, Square(c.x, c.y, c.size + 1), c.x, c.y, c.size + 1, Score(m, c))
  {
  }

  lemma BestAmongKeeps(m: map<Coord, int>, isPart2: bool, n: nat, c: Square, bestX: nat, bestY: nat, bestSide: nat, best: int)
    requires IsCandidate(isPart2, n, c) && BestAmong(m, isPart2, n, c, bestX, bestY, bestSide, best)
    requires Score(m, c) <= best
    ensures BestAmong(m, isPart2, n, Square(c.x, c.y, c.size + 1), bestX, bestY, bestSide, best)
  {
  }

  /** After the last size at `(x, y)`, the squares visited are those before `(x, y + 1)`. */
  lemma BestAmongNextY(m: map<Coord, int>, isPart2: bool, n: nat, x: nat, y: nat, bestX: nat, bestY: nat, bestSide: nat, best: int)
    requires 1 <= x <= n && 1 <= y <= n
    requires BestAmong(m, isPart2, n, Square(x, y, MaxSize(isPart2, n, x, y) + 1), bestX, bestY, bestSide, best)
    ensures BestAmong(m, isPart2, n, Square(x, y + 1, 0), bestX, bestY, bestSide, best)
  {
  }

  /** After the last row at column `x`, the squares visited are those before `(x + 1, 1)`. */
  lemma BestAmongNextX(m: map<Coord, int>, isPart2: bool, n: nat, x: nat, bestX: nat, bestY: nat, bestSide: nat, best: int)
    requires BestAmong(m, isPart2, n, Square(x, n + 1, 0), bestX, bestY, bestSide, best)
    ensures BestAmong(m, isPart2, n, Square(x + 1, 1, 0), bestX, bestY, bestSide, best)
  {
  }

  lemma BestAmongAll(m: map<Coord, int>, isPart2: bool, n: nat, bestX: nat, bestY: nat, bestSide: nat, best: int)
    requires BestAmong(m, isPart2, n, Square(n + 1, 1, 0), bestX, bestY, bestSide, best)
    ensures IsAnswer(m, isPart2, n, bestX, bestY, bestSide)
  {
  }

  /** `find_best_square` over the `n` by `n` grid. */
  method FindBestSquare(m: map<Coord, int>, isPart2: bool, n: nat) returns (bestX: nat, bestY: nat, bestSide: nat)
    ensures IsAnswer(m, isPart2, n, bestX, bestY, bestSide)
  {
    bestX, bestY, bestSide := 1, 1, 0;
    var best := -100;
    BestAmongStart(m, isPart2, n);
    var x: nat := 1;
    while x <= n
      invariant 1 <= x <= n + 1
      invariant BestAmong(m, isPart2, n, Square(x, 1, 0), bestX, bestY, bestSide, best)
    {
      bestX, bestY, bestSide, best := ScanCorners(m, isPart2, n, x, bestX, bestY, bestSide, best);
      x := x + 1;
    }
    BestAmongAll(m, isPart2, n, bestX, bestY, bestSide, best);
  }

  /** The middle loop of `find_best_square`: every top-left corner `(x, y)` of column `x`. */
  method ScanCorners(m: map<Coord, int>, isPart2: bool, n: nat, x: nat,
                     bestX: nat, bestY: nat, bestSide: nat, best: int)
    returns (bestX': nat, bestY': nat, bestSide': nat, best': int)
    requires 1 <= x <= n
    requires BestAmong(m, isPart2, n, Square(x, 1, 0), bestX, bestY, bestSide, best)
    ensures BestAmong(m, isPart2, n, Square(x + 1, 1, 0), bestX', bestY', bestSide', best')
  {
    bestX', bestY', bestSide', best' := bestX, bestY, bestSide, best;
    var y: nat := 1;
    while y <= n
      invariant 1 <= y <= n + 1
      invariant BestAmong(m, isPart2, n, Square(x, y, 0), bestX', bestY', bestSide', best')
    {
      bestX', bestY', bestSide', best' := GrowSquares(m, isPart2, n, x, y, bestX', bestY', bestSide', best');
      y := y + 1;
    }
    BestAmongNextX(m, isPart2, n, x, bestX', bestY', bestSide', best');
  }

  /** The innermost loop of `find_best_square`: grow the square at `(x, y)` one row and one
      column at a time, keeping its running total, and compare each size with the best so far. */
  method GrowSquares(m: map<Coord, int>, isPart2: bool, n: nat, x: nat, y: nat,
                     bestX: nat, bestY: nat, bestSide: nat, best: int)
    returns (bestX': nat, bestY': nat, bestSide': nat, best': int)
    requires 1 <= x <= n && 1 <= y <= n
    requires BestAmong(m, isPart2, n, Square(x, y, 0), bestX, bestY, bestSide, best)
    ensures BestAmong(m, isPart2, n, Square(x, y + 1, 0), bestX', bestY', bestSide', best')
  {
    bestX', bestY', bestSide', best' := bestX, bestY, bestSide, best;
    var curr := 0;
    var maxSize := MaxSize(isPart2, n, x, y);
    var size: nat := 0;
    while size <= maxSize
      invariant size <= maxSize + 1
      invariant curr == SquareSum(m, x, y, size)
      invariant BestAmong(m, isPart2, n, Square(x, y, size), bestX', bestY', bestSide', best')
    {
      var newRow := RowSum(m, x, y + size, size + 1);
      var newColumn := ColSum(m, x + size, y, size + 1);
      SquareGrow(m, x, y, size);
      curr := curr + newRow + newColumn - Cell(m, x + size, y + size);
      bestX', bestY', bestSide', best' := Compare(m, isPart2, n, Square(x, y, size), curr, bestX', bestY', bestSide', best');
      size := size + 1;
    }
    BestAmongNextY(m, isPart2, n, x, y, bestX', bestY', bestSide', best');
  }

  /** The `if curr > best` test of the innermost loop: a strictly larger total replaces the best
      so far, so the earliest square with the top score is kept. */
  method Compare(m: map<Coord, int>, isPart2: bool, n: nat, c: Square, curr: int,
                 bestX: nat, bestY: nat, bestSide: nat, best: int)
    returns (bestX': nat, bestY': nat, bestSide': nat, best': int)
    requires IsCandidate(isPart2, n, c) && curr == Score(m, c)
    requires BestAmong(m, isPart2, n, c, bestX, bestY, bestSide, best)
    ensures BestAmong(m, isPart2, n, Square(c.x, c.y, c.size + 1), bestX', bestY', bestSide', best')
  {
    if curr > best {
      BestAmongImproves(m, isPart2, n, c, bestX, bestY, bestSide, best);
      bestX', bestY', bestSide', best' := c.x, c.y, c.size + 1, curr;
    } else {
      BestAmongKeeps(m, isPart2, n, c, bestX, bestY, bestSide, best);
      bestX', bestY', bestSide', best' := bestX, bestY, bestSide, best;
    }
  }

  // ---------------------------------------------------------------------------
  // Properties of the answer

  /** The answer is determined: the earliest square with the top score is unique. */
  lemma AnswerIsUnique(m: map<Coord, int>, isPart2: bool, n: nat, bestX: nat, bestY: nat, bestSide: nat, otherX: nat, otherY: nat, otherSide: nat)
    requires IsAnswer(m, isPart2, n, bestX, bestY, bestSide) && IsAnswer(m, isPart2, n, otherX, otherY, otherSide)
    ensures bestX == otherX && bestY == otherY && bestSide == otherSide
  {
    if bestSide != 0 && otherSide != 0 {
      var b := Square(bestX, bestY, bestSide - 1);
      var c := Square(otherX, otherY, otherSide - 1);
      assert !Before(b, c) && !Before(c, b);
    }
  }

  /** In part one the side is at most 3; in part two every visited square lies inside the grid. */
  lemma CandidateSides(isPart2: bool, n: nat, c: Square)
    requires IsCandidate(isPart2, n, c)
    ensures !isPart2 ==> c.size + 1 <= 3
    ensures isPart2 ==> c.x + c.size <= n && c.y + c.size <= n
  {
  }

  /** Every cell of a part-two square is a key of the generated map. */
  lemma Part2SquareOnGrid(m: map<Coord, int>, n: nat, c: Square, i: nat, j: nat)
    requires forall d :: d in m <==> OnGrid(d, n)
    requires IsCandidate(true, n, c) && i <= c.size && j <= c.size
    ensures Coord(c.x + i, c.y + j) in m
  {
    assert OnGrid(Coord(c.x + i, c.y + j), n);
  }

  /** On a grid of power levels, the single cell `(1, 1)` already scores above -100, so the
      search always reports a real square. */
  lemma AnswerIsASquare(serial: nat, m: map<Coord, int>, isPart2: bool, n: nat, bestX: nat, bestY: nat, bestSide: nat)
    requires n >= 1
    requires forall c :: c in m ==> m[c] == PowerLevel(c.x, c.y, serial)
    requires IsAnswer(m, isPart2, n, bestX, bestY, bestSide)
    ensures bestSide >= 1
  {
    var c := Square(1, 1, 0);
    assert IsCandidate(isPart2, n, c);
    assert Score(m, c) == Cell(m, 1, 1) by {
      assert RectSum(m, 1, 1, 1, 0) == 0;
      assert RowSum(m, 1, 1, 1) == Cell(m, 1, 1);
    }
  }
}
