/** src/bin/13.rs: carts moving on a track of straight pieces, curves and intersections.
    One cart's move is a pure transition over (position, direction, turn state) driven by the
    tile under it; two first-in-first-out simulations stop at the first collision or when a
    single cart is left. */
module MineCartMadness {
  import opened Options
  import opened Coords

  /** The `#[repr(u8)]` enum: Up = 0, Right = 1, Down = 2, Left = 3, clockwise. */
  datatype Direction = Up | Right | Down | Left

  function ToInt(d: Direction): nat
  {
    match d
    case Up => 0
    case Right => 1
    case Down => 2
    case Left => 3
  }

  /** `Direction::try_from` on the values it accepts. */
  function FromInt(n: nat): (d: Direction)
    requires n < 4
    ensures ToInt(d) == n
  {
    if n == 0 then Up else if n == 1 then Right else if n == 2 then Down else Left
  }

  datatype Tile = Vertical | Horizontal | Slash | BackSlash | Intersection

  datatype Cart = Cart(position: Coord, direction: Direction, state: nat)

  type Track = map<Coord, Tile>

  /** `get_next_position`: the unit step of a direction, rows growing downwards. */
  function StepOf(d: Direction): Coord
  {
    match d
    case Up => Coord(0, -1)
    case Down => Coord(0, 1)
    case Left => Coord(-1, 0)
    case Right => Coord(1, 0)
  }

  /** Every step is a unit step. */
  lemma StepIsUnit(d: Direction)
    ensures Manhattan(StepOf(d), Coord(0, 0)) == 1
  {
  }

  /** The turn taken on `/`. */
  function SlashTurn(d: Direction): Direction
  {
    match d
    case Up => Right
    case Down => Left
    case Left => Down
    case Right => Up
  }

  /** The turn taken on a backslash. */
  function BackSlashTurn(d: Direction): Direction
  {
    match d
    case Up => Left
    case Down => Right
    case Left => Up
    case Right => Down
  }

  /** The turn taken on `+`: `(d - 1 + state).rem_euclid(4)`. */
  function IntersectionTurn(d: Direction, state: nat): Direction
  {
    FromInt((ToInt(d) - 1 + state) % 4)
  }

  function NewDirection(tile: Tile, d: Direction, state: nat): Direction
  {
    match tile
    case Vertical => d
    case Horizontal => d
    case Slash => SlashTurn(d)
    case BackSlash => BackSlashTurn(d)
    case Intersection => IntersectionTurn(d, state)
  }

  /** `get_next_cart_state`. The `unwrap` of the tile lookup makes a position on the track a
      precondition. The new position is one step along the NEW direction, and the turn state
      advances modulo 3 on intersections only, so it stays below 3. */
  function NextCartState(cart: Cart, track: Track): (r: Cart)
    requires cart.position in track
    ensures r.position == Add(cart.position, StepOf(r.direction))
    ensures track[cart.position] == Intersection ==> r.state == (cart.state + 1) % 3
    ensures track[cart.position] != Intersection ==> r.state == cart.state
    ensures cart.state < 3 ==> r.state < 3
    ensures track[cart.position] in {Vertical, Horizontal} ==> r.direction == cart.direction
  {
    var tile := track[cart.position];
    var direction := NewDirection(tile, cart.direction, cart.state);
    var state := if tile == Intersection then (cart.state + 1) % 3 else cart.state;
    Cart(Add(cart.position, StepOf(direction)), direction, state)
  }

  /** A cart always ends one step away from where it was. */
  lemma NextCartMovesOneStep(cart: Cart, track: Track)
    requires cart.position in track
    ensures Manhattan(NextCartState(cart, track).position, cart.position) == 1
  {
    StepIsUnit(NextCartState(cart, track).direction);
  }

  /** A quarter turn to the left on screen (rows grow downwards). */
  function RotateLeft(v: Coord): Coord { Coord(v.y, -v.x) }

  /** A quarter turn to the right on screen. */
  function RotateRight(v: Coord): Coord { Coord(-v.y, v.x) }

  /** A quarter turn counter-clockwise. */
  function TurnLeft(d: Direction): Direction
  {
    match d
    case Up => Left
    case Left => Down
    case Down => Right
    case Right => Up
  }

  /** A quarter turn clockwise. */
  function TurnRight(d: Direction): Direction
  {
    match d
    case Up => Right
    case Right => Down
    case Down => Left
    case Left => Up
  }

  /** The arithmetic rule of `+` spelled out: state 0 turns left, 1 goes straight, 2 turns right. */
  lemma IntersectionTurnTable(d: Direction)
    ensures IntersectionTurn(d, 0) == TurnLeft(d)
    ensures IntersectionTurn(d, 1) == d
    ensures IntersectionTurn(d, 2) == TurnRight(d)
  {
    match d
    case Up =>
      assert (0 - 1 + 0) % 4 == 3 && (0 - 1 + 2) % 4 == 1;
    case Right =>
      assert (1 - 1 + 0) % 4 == 0 && (1 - 1 + 2) % 4 == 2;
    case Down =>
      assert (2 - 1 + 0) % 4 == 1 && (2 - 1 + 2) % 4 == 3;
    case Left =>
      assert (3 - 1 + 0) % 4 == 2 && (3 - 1 + 2) % 4 == 0;
  }

  /** Turning left is a quarter turn counter-clockwise of the unit step on screen. */
  lemma TurnLeftGeometry(d: Direction)
    ensures StepOf(TurnLeft(d)) == RotateLeft(StepOf(d))
  {
    match d
    case Up => assert StepOf(Left) == Coord(-1, 0);
    case Right => assert StepOf(Up) == Coord(0, -1);
    case Down => assert StepOf(Right) == Coord(1, 0);
    case Left => assert StepOf(Down) == Coord(0, 1);
  }

  /** Turning right is a quarter turn clockwise of the unit step on screen. */
  lemma TurnRightGeometry(d: Direction)
    ensures StepOf(TurnRight(d)) == RotateRight(StepOf(d))
  {
    match d
    case Up => assert StepOf(Right) == Coord(1, 0);
    case Right => assert StepOf(Down) == Coord(0, 1);
    case Down => assert StepOf(Left) == Coord(-1, 0);
    case Left => assert StepOf(Up) == Coord(0, -1);
  }

  /** `/` reflects a step in the anti-diagonal. */
  lemma SlashGeometry(d: Direction)
    ensures StepOf(SlashTurn(d)) == Coord(-StepOf(d).y, -StepOf(d).x)
  {
    match d
    case Up => assert StepOf(Right) == Coord(1, 0);
    case Right => assert StepOf(Up) == Coord(0, -1);
    case Down => assert StepOf(Left) == Coord(-1, 0);
    case Left => assert StepOf(Down) == Coord(0, 1);
  }

  /** A backslash reflects a step in the diagonal. */
  lemma BackSlashGeometry(d: Direction)
    ensures StepOf(BackSlashTurn(d)) == Coord(StepOf(d).y, StepOf(d).x)
  {
    match d
    case Up => assert StepOf(Left) == Coord(-1, 0);
    case Right => assert StepOf(Down) == Coord(0, 1);
    case Down => assert StepOf(Right) == Coord(1, 0);
    case Left => assert StepOf(Up) == Coord(0, -1);
  }

  /** Passing the same curve twice undoes the turn. */
  lemma CurvesUndo(d: Direction)
    ensures SlashTurn(SlashTurn(d)) == d && BackSlashTurn(BackSlashTurn(d)) == d
  {
    match d
    case Up =>
    case Right =>
    case Down =>
    case Left =>
  }

  /** Left, straight, right: a cart that meets three intersections from state 0 faces its
      original direction again, and its state (0, then 1, then 2) is back to 0. */
  lemma ThreeIntersections(d: Direction)
    ensures IntersectionTurn(IntersectionTurn(IntersectionTurn(d, 0), 1), 2) == d
  {
    IntersectionTurnTable(d);
    IntersectionTurnTable(TurnLeft(d));
    assert TurnRight(TurnLeft(d)) == d by {
      match d
      case Up =>
      case Right =>
      case Down =>
      case Left =>
    }
  }

  // ---------------------------------------------------------------------------
  // The simulations

  /** How a simulation ends. `OffTrack`: a cart left the track and the tile lookup panicked.
      `NoCartLeft`: `pop_front().unwrap()` on an empty queue panicked. `OutOfFuel`: the model
      stopped after its step budget. */
  datatype Outcome = Finished(position: Coord) | OffTrack | NoCartLeft | OutOfFuel

  /** The result of one iteration of a simulation loop. */
  datatype Tick = Collision(at: Coord) | Moved(queue: seq<Cart>) | Derailed

  predicate StatesValid(q: seq<Cart>)
  {
    forall i :: 0 <= i < |q| ==> q[i].state < 3
  }

  /** The index of the first cart at `pos`, as `iter().enumerate().find(..)` returns it. */
  function FindCart(q: seq<Cart>, pos: Coord): (r: Option<nat>)
    ensures r.Some? ==> r.value < |q| && q[r.value].position == pos
    ensures r.Some? ==> forall j :: 0 <= j < r.value ==> q[j].position != pos
    ensures r.None? ==> forall j :: 0 <= j < |q| ==> q[j].position != pos
  {
    if q == [] then None
    else if q[0].position == pos then Some(0)
    else match FindCart(q[1..], pos)
      case None => None
      case Some(i) => Some(i + 1)
  }

  /** One iteration of `simulate_until_first_crash`: the front cart moves; if it lands on a
      cart still queued that position is the answer, otherwise it goes to the back. */
  function FirstCrashTick(track: Track, q: seq<Cart>): (t: Tick)
    requires |q| > 0
    ensures t.Derailed? <==> q[0].position !in track
    ensures t.Collision? ==> t.at == NextCartState(q[0], track).position
    ensures t.Collision? ==> exists j :: 1 <= j < |q| && q[j].position == t.at
    ensures t.Moved? ==> t.queue == q[1..] + [NextCartState(q[0], track)]
    ensures t.Moved? ==> forall j :: 1 <= j < |q| ==> q[j].position != NextCartState(q[0], track).position
    ensures t.Moved? ==> |t.queue| == |q| && (StatesValid(q) ==> StatesValid(t.queue))
  {
    if q[0].position !in track then Derailed
    else
      var next := NextCartState(q[0], track);
      if exists j :: 1 <= j < |q| && q[j].position == next.position then Collision(next.position)
      else Moved(q[1..] + [next])
  }

  /** The loop of `simulate_until_first_crash` run for at most `fuel` iterations. */
  function FirstCrash(track: Track, q: seq<Cart>, fuel: nat): Outcome
    decreases fuel
  {
    if q == [] then Finished(Coord(0, 0))
    else if fuel == 0 then OutOfFuel
    else match FirstCrashTick(track, q)
      case Derailed => OffTrack
      case Collision(at) => Finished(at)
      case Moved(q') => FirstCrash(track, q', fuel - 1)
  }

  /** `simulate_until_first_crash`, with `fuel` bounding the loop. */
  method SimulateUntilFirstCrash(track: Track, carts: seq<Cart>, fuel: nat) returns (r: Outcome)
    ensures r == FirstCrash(track, carts, fuel)
  {
    ghost var goal := FirstCrash(track, carts, fuel);
    var queue := carts;
    var left := fuel;
    while queue != []
      invariant FirstCrash(track, queue, left) == goal
      decreases left
    {
      if left == 0 {
        return OutOfFuel;
      }
      ghost var before := queue;
      var cart := queue[0];
      queue := queue[1..];
      if cart.position !in track {
        return OffTrack;
      }
      var next := NextCartState(cart, track);
      var crash := AnyAt(queue, next.position);
      if crash {
        FirstCrashAdvance(track, before, left);
        return Finished(next.position);
      }
      FirstCrashAdvance(track, before, left);
      queue := queue + [next];
      left := left - 1;
    }
    return Finished(Coord(0, 0));
  }

  /** `queue.iter().any(..)`: whether some queued cart stands at `pos`. */
  method AnyAt(queue: seq<Cart>, pos: Coord) returns (b: bool)
    ensures b <==> exists j :: 0 <= j < |queue| && queue[j].position == pos
  {
    var i := 0;
    while i < |queue|
      invariant 0 <= i <= |queue|
      invariant forall j :: 0 <= j < i ==> queue[j].position != pos
    {
      if queue[i].position == pos {
        return true;
      }
      i := i + 1;
    }
    return false;
  }

  /** One iteration of the first-crash loop, read off the tick. */
  lemma FirstCrashAdvance(track: Track, q: seq<Cart>, fuel: nat)
    requires |q| > 0 && fuel > 0 && q[0].position in track
    ensures FirstCrashTick(track, q).Collision? <==>
      exists j :: 0 <= j < |q[1..]| && q[1..][j].position == NextCartState(q[0], track).position
    ensures FirstCrashTick(track, q).Collision? ==>
      FirstCrash(track, q, fuel) == Finished(NextCartState(q[0], track).position)
    ensures FirstCrashTick(track, q).Moved? ==>
      FirstCrash(track, q, fuel) == FirstCrash(track, q[1..] + [NextCartState(q[0], track)], fuel - 1)
  {
    assert forall j :: 1 <= j < |q| ==> q[j] == q[1..][j - 1];
  }

  /** One iteration of the last-crash loop, read off the tick. */
  lemma LastCrashAdvance(track: Track, q: seq<Cart>, fuel: nat, q': seq<Cart>)
    requires |q| > 1 && fuel > 0 && LastCrashTick(track, q) == Moved(q')
    ensures LastCrash(track, q, fuel) == LastCrash(track, q', fuel - 1)
  {
  }

  /** A lone cart cannot collide: the first-crash simulation of one cart never finishes. */
  lemma {:induction false} LoneCartNeverCrashes(track: Track, q: seq<Cart>, fuel: nat)
    requires |q| == 1
    ensures !FirstCrash(track, q, fuel).Finished?
    decreases fuel
  {
    if fuel > 0 {
      match FirstCrashTick(track, q)
      case Derailed =>
      case Collision(at) =>
      case Moved(q') => LoneCartNeverCrashes(track, q', fuel - 1);
    }
  }

  /** Turn states stay in {0, 1, 2} and the number of carts stays the same all along the
      first-crash simulation. */
  lemma {:induction false} FirstCrashKeepsStates(track: Track, q: seq<Cart>, n: nat)
    requires StatesValid(q) && |q| > 0
    ensures forall q' :: QueueAfter(track, q, n) == Some(q') ==> StatesValid(q') && |q'| == |q|
    decreases n
  {
    if n > 0 {
      match FirstCrashTick(track, q)
      case Derailed =>
      case Collision(at) =>
      case Moved(q') => FirstCrashKeepsStates(track, q', n - 1);
    }
  }

  /** The queue after `n` iterations of the first-crash loop without a crash, if there are that many. */
  function QueueAfter(track: Track, q: seq<Cart>, n: nat): Option<seq<Cart>>
    requires |q| > 0
    decreases n
  {
    if n == 0 then Some(q)
    else match FirstCrashTick(track, q)
      case Moved(q') => QueueAfter(track, q', n - 1)
      case _ => None
  }

  /** One iteration of `simulate_until_last_crash`: the front cart moves; if it lands on a
      queued cart, that cart is removed and the moving one is not re-queued. */
  function LastCrashTick(track: Track, q: seq<Cart>): (t: Tick)
    requires |q| > 1
    ensures t.Derailed? <==> q[0].position !in track
    ensures !t.Collision?
  {
    if q[0].position !in track then Derailed
    else
      var next := NextCartState(q[0], track);
      var rest := q[1..];
      match FindCart(rest, next.position)
      case Some(i) => Moved(rest[..i] + rest[i + 1..])
      case None => Moved(rest + [next])
  }

  /** The queue after a last-crash iteration: when no queued cart stands where the front cart
      lands, the moved cart goes to the back; otherwise the first queued cart standing there
      is removed and the moving cart is not re-queued. */
  lemma LastCrashTickQueue(track: Track, q: seq<Cart>)
    requires |q| > 1 && q[0].position in track
    ensures var next := NextCartState(q[0], track);
      (forall j :: 1 <= j < |q| ==> q[j].position != next.position) ==>
        LastCrashTick(track, q) == Moved(q[1..] + [next])
    ensures var next := NextCartState(q[0], track);
      (exists j :: 1 <= j < |q| && q[j].position == next.position) ==>
        exists i :: 1 <= i < |q| && q[i].position == next.position
          && (forall j :: 1 <= j < i ==> q[j].position != next.position)
          && LastCrashTick(track, q) == Moved(q[1..i] + q[i + 1..])
  {
    var next := NextCartState(q[0], track);
    var found := FindCart(q[1..], next.position);
    if found.Some? {
      FirstQueuedAt(q, next.position, found.value);
    } else {
      assert forall j :: 1 <= j < |q| ==> q[j] == q[1..][j - 1];
    }
  }

  /** The cart `FindCart` finds behind the front one, in the indices of the whole queue. */
  lemma FirstQueuedAt(q: seq<Cart>, pos: Coord, i: nat)
    requires |q| > 1 && i < |q| - 1 && q[1..][i].position == pos
    requires forall j :: 0 <= j < i ==> q[1..][j].position != pos
    ensures q[i + 1].position == pos && forall j :: 1 <= j < i + 1 ==> q[j].position != pos
    ensures q[1..][..i] + q[1..][i + 1..] == q[1..i + 1] + q[i + 2..]
  {
    assert forall j :: 1 <= j < i + 1 ==> q[j] == q[1..][j - 1];
  }

  /** The loop of `simulate_until_last_crash` for at most `fuel` iterations, then the final
      `pop_front().unwrap()` and the `get_next_cart_state` call inside `dbg!`, which panics
      when the last cart is off the track. */
  function LastCrash(track: Track, q: seq<Cart>, fuel: nat): Outcome
    decreases fuel
  {
    if |q| <= 1 then
      if q == [] then NoCartLeft
      else if q[0].position !in track then OffTrack
      else Finished(q[0].position)
    else if fuel == 0 then OutOfFuel
    else match LastCrashTick(track, q)
      case Moved(q') => LastCrash(track, q', fuel - 1)
      case _ => OffTrack
  }

  /** `simulate_until_last_crash`, with `fuel` bounding the loop. */
  method SimulateUntilLastCrash(track: Track, carts: seq<Cart>, fuel: nat) returns (r: Outcome)
    ensures r == LastCrash(track, carts, fuel)
  {
    ghost var goal := LastCrash(track, carts, fuel);
    var queue := carts;
    var left := fuel;
    while |queue| > 1
      invariant LastCrash(track, queue, left) == goal
      decreases left
    {
      if left == 0 {
        return OutOfFuel;
      }
      if queue[0].position !in track {
        return OffTrack;
      }
      var after := LastCrashRound(track, queue);
      LastCrashAdvance(track, queue, left, after);
      queue := after;
      left := left - 1;
    }
    if queue == [] {
      return NoCartLeft;
    }
    var last := queue[0];
    if last.position !in track {
      return OffTrack;
    }
    return Finished(last.position);
  }

  /** The body of the `while` loop of `simulate_until_last_crash` for a cart on the track: the
      front cart moves, and either the queued cart it hits is removed or it goes to the back. */
  method LastCrashRound(track: Track, queue: seq<Cart>) returns (after: seq<Cart>)
    requires |queue| > 1 && queue[0].position in track
    ensures LastCrashTick(track, queue) == Moved(after)
  {
    var cart := queue[0];
    var rest := queue[1..];
    var next := NextCartState(cart, track);
    var found := FindCart(rest, next.position);
    if found.Some? {
      var i := found.value;
      after := rest[..i] + rest[i + 1..];
    } else {
      after := rest + [next];
    }
  }

  /** A round of the last-crash loop keeps every cart exactly when the moved cart lands on a
      free square, and removes exactly two exactly when it lands on a queued cart. */
  lemma LastCrashTickLength(track: Track, q: seq<Cart>)
    requires |q| > 1 && LastCrashTick(track, q).Moved?
    ensures var next := NextCartState(q[0], track);
      (forall j :: 1 <= j < |q| ==> q[j].position != next.position) <==> |LastCrashTick(track, q).queue| == |q|
    ensures var next := NextCartState(q[0], track);
      (exists j :: 1 <= j < |q| && q[j].position == next.position) <==> |LastCrashTick(track, q).queue| == |q| - 2
  {
    LastCrashTickQueue(track, q);
  }

  /** A round of the last-crash loop keeps turn states in {0, 1, 2}. */
  lemma LastCrashTickKeepsStates(track: Track, q: seq<Cart>)
    requires |q| > 1 && StatesValid(q) && LastCrashTick(track, q).Moved?
    ensures StatesValid(LastCrashTick(track, q).queue)
  {
  }

  /** Collisions remove carts two at a time, so from an odd number of carts the queue never
      empties and the final `unwrap` cannot fail. */
  lemma {:induction false} OddCountNeverEmpties(track: Track, q: seq<Cart>, fuel: nat)
    requires |q| % 2 == 1
    ensures LastCrash(track, q, fuel) != NoCartLeft
    decreases fuel
  {
    if |q| > 1 && fuel > 0 {
      match LastCrashTick(track, q)
      case Moved(q') =>
        LastCrashTickLength(track, q);
        OddCountNeverEmpties(track, q', fuel - 1);
      case _ =>
    }
  }

  // ---------------------------------------------------------------------------
  // Reading the map

  /** The glyph of a cart facing `d`: the arrow pointing that way on screen. */
  function Arrow(d: Direction): char
  {
    match d
    case Up => '^'
    case Right => '>'
    case Down => 'v'
    case Left => '<'
  }

  /** `get_cart`: a cart, in turn state 0, stands exactly on the four arrow glyphs, facing
      the way its arrow points. */
  function GetCart(c: char, at: Coord): (r: Option<Cart>)
    ensures r.Some? <==> c in {'<', '>', 'v', '^'}
    ensures r.Some? ==> r.value.position == at && r.value.state == 0
    ensures r.Some? ==> Arrow(r.value.direction) == c
  {
    if c == '<' then Some(Cart(at, Left, 0))
    else if c == '>' then Some(Cart(at, Right, 0))
    else if c == 'v' then Some(Cart(at, Down, 0))
    else if c == '^' then Some(Cart(at, Up, 0))
    else None
  }

  /** The glyphs that stand for a tile on the map: a cart's arrow hides the straight track
      running its way. */
  function Glyphs(t: Tile): set<char>
  {
    match t
    case Vertical => {'|', '^', 'v'}
    case Horizontal => {'-', '<', '>'}
    case Slash => {'/'}
    case BackSlash => {'\\'}
    case Intersection => {'+'}
  }

  /** `get_tile_type`; `None` where the Rust code panics on an unexpected character. */
  function GetTileType(c: char): (r: Option<Tile>)
    ensures r.Some? <==> c in {'-', '>', '<', '|', '^', 'v', '/', '\\', '+'}
    ensures r.Some? ==> c in Glyphs(r.value)
  {
    match c
    case '-' => Some(Horizontal)
    case '>' => Some(Horizontal)
    case '<' => Some(Horizontal)
    case '|' => Some(Vertical)
    case '^' => Some(Vertical)
    case 'v' => Some(Vertical)
    case '/' => Some(Slash)
    case '\\' => Some(BackSlash)
    case '+' => Some(Intersection)
    case _ => None
  }

  /** Under every cart glyph lies straight track running the cart's way: horizontal for
      carts facing left or right, vertical for carts facing up or down. */
  lemma CartGlyphOnStraightTrack(c: char, at: Coord)
    requires GetCart(c, at).Some?
    ensures var d := GetCart(c, at).value.direction;
            GetTileType(c) == Some(if d == Left || d == Right then Horizontal else Vertical)
  {
  }
}
