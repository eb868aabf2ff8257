/** Grid coordinates. The Rust code uses `num::Complex<i32>`: the real part `x` is the
    column and the imaginary part `y` is the row, with rows growing downwards. */
module Coords {
  datatype Coord = Coord(x: int, y: int)

  function Add(a: Coord, b: Coord): Coord { Coord(a.x + b.x, a.y + b.y) }

  function Abs(n: int): nat { if n < 0 then -n else n }

  /** Number of orthogonal unit steps between two squares. */
  function Manhattan(a: Coord, b: Coord): nat { Abs(a.x - b.x) + Abs(a.y - b.y) }
}
