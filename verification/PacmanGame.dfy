/** The game loop of game.c. Pacman keeps (row, column) in (x, y); a phantom keeps (column, row). */
module PacmanGame {
  import opened MazeSearch

  const NPHANTOM := 4
  const X_START := 47
  const Y_START := 17

  datatype UnitType = Pacman | Phantom
  datatype Unit = Unit(x: int, y: int, dir: Dir, kind: UnitType)
  datatype Option<+T> = None | Some(value: T)

  function PacmanPos(u: Unit): Pos { Pos(u.x, u.y) }
  function PhantomPos(u: Unit): Pos { Pos(u.y, u.x) }

  /** Phantoms start in a square of two columns and two rows. */
  function PhantomStart(i: int): Pos {
    Pos(Y_START + i % 2, X_START + i / 2)
  }

  // ---- the maze --------------------------------------------------------

  ghost predicate Walled(m: Maze) {
    forall p :: Open(m, p) ==> 1 <= p.x < ROWS - 1 && 1 <= p.y < COLUMNS - 1
  }

  /** The cells that hold food. */
  ghost function FoodCells(m: Maze): set<(int, int)> {
    set x, y | 0 <= x < ROWS && 0 <= y < COLUMNS && m[x][y] == Food :: (x, y)
  }

  function Eaten(m: Maze, p: Pos): Maze
    requires InBounds(p)
  {
    m[p.x := m[p.x][p.y := Empty]]
  }

  lemma FoodEaten(m: Maze, p: Pos)
    requires InBounds(p) && m[p.x][p.y] == Food
    ensures |FoodCells(Eaten(m, p))| == |FoodCells(m)| - 1
  {
    assert (p.x, p.y) in FoodCells(m);
    assert FoodCells(Eaten(m, p)) == FoodCells(m) - {(p.x, p.y)};
  }

  /** Eating changes no wall. */
  lemma EatenOpen(m: Maze, p: Pos, c: Pos)
    requires Open(m, p)
    ensures Open(Eaten(m, p), c) <==> Open(m, c)
  {
  }

  /** Phantom k standing still at its start. */
  function StartUnit(k: int): Unit {
    Unit(X_START + k / 2, Y_START + k % 2, Still, Phantom)
  }

  lemma StartOf(i: nat, j: nat)
    requires i < 2 && j < 2
    ensures StartUnit(i * 2 + j) == Unit(X_START + i, Y_START + j, Still, Phantom)
  {
  }

  /** The cells where Pacman and the phantoms are put are open. */
  ghost predicate Starts(m: Maze) {
    Open(m, Pos(1, 1)) && forall i :: 0 <= i < NPHANTOM ==> Open(m, PhantomStart(i))
  }

  lemma EatenKeepsShape(m: Maze, p: Pos)
    requires Open(m, p) && Walled(m) && Starts(m)
    ensures Walled(Eaten(m, p)) && Starts(Eaten(m, p))
  {
    forall c ensures Open(Eaten(m, p), c) <==> Open(m, c) {
      EatenOpen(m, p, c);
    }
  }

  // ---- units -----------------------------------------------------------

  /** Where Pacman is after one step in its direction, unless a wall is there. */
  function Stepped(m: Maze, p: Pos, d: Dir): Pos {
    if Open(m, MazeSearch.Move(p, d)) then MazeSearch.Move(p, d) else p
  }

  const PHANTOM1 := [2, 2, 1, 1, 1, 2, 1, 1, 2, 2]
  const PHANTOM2 := [2, 2, 1, 1, 1, 2, 1, 1, 2, 2]
  const PHANTOM3 := [1, 1, 2, 2, 1, 1, 2, 2, 1, 1]
  const PHANTOM4 := [1, 1, 2, 2, 1, 1, 2, 2, 1, 1]

  function Abs(i: int): int { if i < 0 then -i else i }

  /** The phantom lies within 27 steps of Pacman, walls not counted. */
  predicate Near(phantom: Pos, pacman: Pos) {
    Abs(phantom.x - pacman.x) + Abs(phantom.y - pacman.y) - 10 <= 17
  }

  /** What phantom i does when it is near and the counter shows `random`. */
  datatype Plan = Chase | Turn(d: Dir) | Keep

  function PlanOf(i: int, random: nat): Plan {
    var k := random % 10;
    if i == 0 then (if PHANTOM1[k] % 2 == 0 then Keep else if random < 2 then Turn(Left) else Chase)
    else if i == 1 then (if PHANTOM2[k] % 2 != 0 then Turn(Still) else if random < 4 then Turn(Left) else Chase)
    else if i == 2 then (if PHANTOM3[k] % 2 != 0 then Turn(Still) else if random < 1 then Turn(Left) else Chase)
    else (if PHANTOM4[k] % 2 != 0 then Turn(Still) else Chase)
  }

  /** The phantom took the answer of the search and stepped there. */
  ghost predicate Chased(m: Maze, pacman: Pos, u: Unit, u': Unit) {
    u'.kind == u.kind && Answers(m, PhantomPos(u), pacman, u'.dir) && PhantomPos(u') == MazeSearch.Move(PhantomPos(u), u'.dir)
  }

  lemma ChasedOpen(m: Maze, pacman: Pos, u: Unit, u': Unit)
    requires Chased(m, pacman, u, u') && Open(m, PhantomPos(u))
    ensures Open(m, PhantomPos(u'))
  {
    if u'.dir != Still {
      var n := AnswerIsCloser(m, PhantomPos(u), pacman, u'.dir);
    }
  }

  /** One turn of phantom i: it moves only by taking the answer of the search. */
  ghost predicate PhantomTurn(m: Maze, pacman: Pos, i: int, random: nat, u: Unit, u': Unit) {
    && u'.kind == u.kind
    && if !Near(PhantomPos(u), pacman) then u' == u
       else match PlanOf(i, random)
            case Keep => u' == u
            case Turn(d) => u' == u.(dir := d)
            case Chase => Chased(m, pacman, u, u')
  }

  /** A phantom stays where it was, or enters an open cell one step closer to Pacman. */
  ghost predicate StaysOrCloser(m: Maze, pacman: Pos, u: Unit, u': Unit) {
    || PhantomPos(u') == PhantomPos(u)
    || (Open(m, PhantomPos(u')) && exists n: nat :: n > 0 && Distance(m, PhantomPos(u), pacman, n) && Distance(m, PhantomPos(u'), pacman, n - 1))
  }

  /** The chase: whatever the counter shows, a phantom that moves comes one step closer and
      never enters a wall. */
  lemma PhantomTurnChases(m: Maze, pacman: Pos, i: int, random: nat, u: Unit, u': Unit)
    requires PhantomTurn(m, pacman, i, random, u, u')
    ensures StaysOrCloser(m, pacman, u, u')
    ensures Open(m, PhantomPos(u)) ==> Open(m, PhantomPos(u'))
  {
    if PhantomPos(u') != PhantomPos(u) {
      var n := AnswerIsCloser(m, PhantomPos(u), pacman, u'.dir);
    }
  }

  /** Phantom 0 never stands still, unlike the others: its second test repeats the first, so where
      its schedule is even it keeps its direction and does not move. */
  lemma FirstPhantomNeverStops(random: nat)
    ensures PlanOf(0, random) != Turn(Still)
    ensures PlanOf(0, random) == Keep <==> PHANTOM1[random % 10] % 2 == 0
    ensures forall i :: 1 <= i < NPHANTOM ==> PlanOf(i, random) != Keep
  {
  }

  /** Elsewhere an odd schedule means standing still. */
  lemma OthersStop(random: nat)
    ensures PlanOf(1, random) == Turn(Still) <==> PHANTOM2[random % 10] % 2 != 0
    ensures PlanOf(2, random) == Turn(Still) <==> PHANTOM3[random % 10] % 2 != 0
    ensures PlanOf(3, random) == Turn(Still) <==> PHANTOM4[random % 10] % 2 != 0
  {
  }

  /** The counter at the turn of phantom i: it grows at each turn of a near phantom. */
  function RandomAt(us: seq<Unit>, pacman: Pos, random: nat, i: nat): nat
    requires i <= |us|
  {
    if i == 0 then random
    else RandomAt(us, pacman, random, i - 1) + if Near(PhantomPos(us[i - 1]), pacman) then 1 else 0
  }

  /** The points that end the game are reached exactly when no food is left and no earlier game
      was started, whose food still counts in the total. */
  lemma WonWhenAllEaten(m: Maze, points: int, total: int, earlier: nat)
    requires points + 10 * |FoodCells(m)| == 10 * (total - earlier)
    ensures points >= total * 10 <==> earlier == 0 && forall p :: InBounds(p) ==> m[p.x][p.y] != Food
    ensures points >= total * 10 <==> earlier == 0 && FoodCells(m) == {}
  {
    if p :| InBounds(p) && m[p.x][p.y] == Food {
      assert (p.x, p.y) in FoodCells(m);
    }
    if FoodCells(m) != {} {
      var c :| c in FoodCells(m);
      assert InBounds(Pos(c.0, c.1));
    }
  }

  /** The food cells that come before (i, j) row by row. */
  ghost function FoodBefore(m: Maze, i: nat, j: nat): set<(int, int)> {
    set x, y | 0 <= x < ROWS && 0 <= y < COLUMNS && m[x][y] == Food && (x < i || (x == i && y < j)) :: (x, y)
  }

  lemma NoFoodBefore(m: Maze)
    ensures FoodBefore(m, 0, 0) == {}
  {
  }

  lemma FoodBeforeStep(m: Maze, i: nat, j: nat)
    requires i < ROWS && j < COLUMNS
    ensures |FoodBefore(m, i, j + 1)| == |FoodBefore(m, i, j)| + if m[i][j] == Food then 1 else 0
  {
    assert FoodBefore(m, i, j + 1) == FoodBefore(m, i, j) + if m[i][j] == Food then {(i, j)} else {};
  }

  lemma FoodBeforeRow(m: Maze, i: nat)
    requires i < ROWS
    ensures FoodBefore(m, i, COLUMNS) == FoodBefore(m, i + 1, 0)
  {
  }

  /** The first loops of init_game: the matrix and the number of its food cells. */
  method CopyCells(cells: Maze) returns (grid: array2<Cell>, count: nat)
    ensures fresh(grid) && Shows(grid, cells) && count == |FoodCells(cells)|
  {
    grid := new Cell[ROWS, COLUMNS];
    count := 0;
    var i := 0;
    NoFoodBefore(cells);
    while i < ROWS
      invariant i <= ROWS && count == |FoodBefore(cells, i, 0)|
      invariant forall x, y :: 0 <= x < i && 0 <= y < COLUMNS ==> grid[x, y] == cells[x][y]
    {
      var j := 0;
      while j < COLUMNS
        invariant j <= COLUMNS && count == |FoodBefore(cells, i, j)|
        invariant forall x, y :: 0 <= x < i && 0 <= y < COLUMNS ==> grid[x, y] == cells[x][y]
        invariant forall y :: 0 <= y < j ==> grid[i, y] == cells[i][y]
      {
        FoodBeforeStep(cells, i, j);
        grid[i, j] := cells[i][j];
        if cells[i][j] == Food {
          count := count + 1;
        }
        j := j + 1;
      }
      FoodBeforeRow(cells, i);
      i := i + 1;
    }
    assert FoodBefore(cells, ROWS, 0) == FoodCells(cells);
  }

  // ---- frames of the game as values ------------------------------------

  /** `earlier` is the part of `total` that the games before this one left there. */
  datatype World = World(maze: Maze, pacman: Unit, phantoms: seq<Unit>, points: int, lives: int, total: int, earlier: nat, random: nat)

  /** Units of their kind on open cells of a walled maze, each eaten cell paid with ten points. */
  ghost predicate WorldOk(w: World) {
    && Walled(w.maze) && Starts(w.maze)
    && w.pacman.kind == Pacman && Open(w.maze, PacmanPos(w.pacman))
    && |w.phantoms| == NPHANTOM
    && (forall i :: 0 <= i < NPHANTOM ==> w.phantoms[i].kind == Phantom && Open(w.maze, PhantomPos(w.phantoms[i])))
    && w.points + 10 * |FoodCells(w.maze)| == 10 * (w.total - w.earlier)
    && w.lives >= 0
  }

  /** The game loop stops here. */
  predicate Over(w: World) {
    w.lives <= 0 || w.points >= w.total * 10
  }

  /** What ends the game: no life left, or, in the first game only, no food. */
  lemma OverMeans(w: World)
    requires WorldOk(w)
    ensures Over(w) <==> w.lives == 0 || (w.earlier == 0 && FoodCells(w.maze) == {})
  {
    WonWhenAllEaten(w.maze, w.points, w.total, w.earlier);
  }

  /** Pacman after a key: turned when that leads to an open cell, then one step on. */
  function OneStep(m: Maze, u: Unit, d: Dir): Unit {
    var turned := if d != Still && Open(m, MazeSearch.Move(PacmanPos(u), d)) then u.(dir := d) else u;
    var to := Stepped(m, PacmanPos(u), turned.dir);
    turned.(x := to.x, y := to.y)
  }

  /** The points for the cell that Pacman leaves. */
  function Fed(w: World, p: Pos): World
    requires InBounds(p)
  {
    if w.maze[p.x][p.y] == Food then w.(maze := Eaten(w.maze, p), points := w.points + 10) else w
  }

  function Walked(w: World, move: Option<Dir>): World
    requires InBounds(PacmanPos(w.pacman))
  {
    if move.None? then w
    else Fed(w, PacmanPos(w.pacman)).(pacman := OneStep(w.maze, w.pacman, move.value))
  }

  /** The first i phantoms took their turns. */
  ghost predicate TurnsDone(w: World, us: seq<Unit>, random: nat, i: nat) {
    && |us| == |w.phantoms| == NPHANTOM && i <= NPHANTOM
    && random == RandomAt(w.phantoms, PacmanPos(w.pacman), w.random, i)
    && (forall j :: i <= j < NPHANTOM ==> us[j] == w.phantoms[j])
    && (forall j :: 0 <= j < i ==> TurnAt(w, us, j))
  }

  ghost predicate TurnAt(w: World, us: seq<Unit>, j: nat)
    requires j < |us| == |w.phantoms|
  {
    PhantomTurn(w.maze, PacmanPos(w.pacman), j, RandomAt(w.phantoms, PacmanPos(w.pacman), w.random, j), w.phantoms[j], us[j])
  }

  lemma TurnsStep(w: World, us: seq<Unit>, random: nat, i: nat, us': seq<Unit>, random': nat)
    requires TurnsDone(w, us, random, i) && i < NPHANTOM && |us'| == NPHANTOM && us' == us[i := us'[i]]
    requires PhantomTurn(w.maze, PacmanPos(w.pacman), i, random, us[i], us'[i])
    requires random' == random + if Near(PhantomPos(us[i]), PacmanPos(w.pacman)) then 1 else 0
    ensures TurnsDone(w, us', random', i + 1)
  {
    forall j | 0 <= j < i + 1 ensures TurnAt(w, us', j) {
      assert j < i ==> TurnAt(w, us, j) && us'[j] == us[j];
    }
  }

  lemma PhantomSet(w: World, i: nat, u: Unit)
    requires WorldOk(w) && i < NPHANTOM && u.kind == Phantom && Open(w.maze, PhantomPos(u))
    ensures WorldOk(w.(phantoms := w.phantoms[i := u]))
  {
  }

  /** All phantoms take their turns, in order. */
  ghost predicate Turned(w: World, w': World) {
    w' == w.(phantoms := w'.phantoms, random := w'.random) && TurnsDone(w, w'.phantoms, w'.random, NPHANTOM)
  }

  /** A phantom is on Pacman's cell. */
  predicate Caught(w: World) {
    exists i :: 0 <= i < |w.phantoms| && PhantomPos(w.phantoms[i]) == PacmanPos(w.pacman)
  }

  function Restarted(w: World): World {
    w.(pacman := Unit(1, 1, Still, Pacman), phantoms := seq(NPHANTOM, k => StartUnit(k)))
  }

  /** A catch costs one life, however many phantoms share Pacman's cell. */
  function Judged(w: World): World {
    if Caught(w) then Restarted(w).(lives := w.lives - 1) else w
  }

  /** One iteration of the game loop. */
  ghost predicate FrameStep(w: World, move: Option<Dir>, w': World) {
    InBounds(PacmanPos(w.pacman)) && exists v :: Turned(Walked(w, move), v) && w' == Judged(v)
  }

  lemma WalkedOk(w: World, move: Option<Dir>)
    requires WorldOk(w)
    ensures WorldOk(Walked(w, move))
    ensures FoodCells(Walked(w, move).maze) <= FoodCells(w.maze)
  {
    var p := PacmanPos(w.pacman);
    if move.Some? && w.maze[p.x][p.y] == Food {
      FoodEaten(w.maze, p);
      EatenKeepsShape(w.maze, p);
      forall c ensures Open(Eaten(w.maze, p), c) <==> Open(w.maze, c) {
        EatenOpen(w.maze, p, c);
      }
    }
  }

  lemma TurnedOk(w: World, w': World)
    requires WorldOk(w) && Turned(w, w')
    ensures WorldOk(w')
    ensures forall i :: 0 <= i < NPHANTOM ==> StaysOrCloser(w.maze, PacmanPos(w.pacman), w.phantoms[i], w'.phantoms[i])
  {
    forall i | 0 <= i < NPHANTOM
      ensures StaysOrCloser(w.maze, PacmanPos(w.pacman), w.phantoms[i], w'.phantoms[i]) && Open(w'.maze, PhantomPos(w'.phantoms[i]))
      ensures w'.phantoms[i].kind == Phantom
    {
      assert TurnAt(w, w'.phantoms, i);
      PhantomTurnChases(w.maze, PacmanPos(w.pacman), i, RandomAt(w.phantoms, PacmanPos(w.pacman), w.random, i), w.phantoms[i], w'.phantoms[i]);
    }
  }

  lemma JudgedOk(w: World)
    requires WorldOk(w) && w.lives > 0
    ensures WorldOk(Judged(w))
  {
    forall k | 0 <= k < NPHANTOM ensures Open(w.maze, PhantomPos(StartUnit(k))) {
      assert PhantomPos(StartUnit(k)) == PhantomStart(k);
    }
  }

  lemma TurnedKeeps(w: World, walked: World, w': World)
    requires WorldOk(walked) && Turned(walked, w') && walked.phantoms == w.phantoms
    ensures WorldOk(w')
    ensures w'.maze == walked.maze && w'.pacman == walked.pacman && w'.lives == walked.lives && w'.total == walked.total && w'.earlier == walked.earlier
    ensures forall i :: 0 <= i < NPHANTOM ==> StaysOrCloser(w'.maze, PacmanPos(w'.pacman), w.phantoms[i], w'.phantoms[i])
  {
    TurnedOk(walked, w');
  }

  /** A frame keeps everybody out of the walls and the points right, costs at most one life, and
      without a catch brings no phantom further from Pacman. */
  lemma FrameKeepsWorld(w: World, move: Option<Dir>, w': World)
    requires WorldOk(w) && FrameStep(w, move, w') && !Over(w)
    ensures WorldOk(w') && w'.total == w.total && w'.earlier == w.earlier && FoodCells(w'.maze) <= FoodCells(w.maze)
    ensures w.lives - 1 <= w'.lives <= w.lives
    ensures w'.lives == w.lives ==> !Caught(w') && forall i :: 0 <= i < NPHANTOM ==>
      StaysOrCloser(w'.maze, PacmanPos(w'.pacman), w.phantoms[i], w'.phantoms[i])
  {
    var v :| Turned(Walked(w, move), v) && w' == Judged(v);
    WalkedOk(w, move);
    TurnedKeeps(w, Walked(w, move), v);
    JudgedOk(v);
  }

  /** There is one next frame: the search leaves the phantoms no choice. */
  lemma FrameIsUnique(w: World, move: Option<Dir>, a: World, b: World)
    requires WorldOk(w) && FrameStep(w, move, a) && FrameStep(w, move, b)
    ensures a == b
  {
    var v := Walked(w, move);
    var c :| Turned(v, c) && a == Judged(c);
    var d :| Turned(v, d) && b == Judged(d);
    forall i | 0 <= i < NPHANTOM ensures c.phantoms[i] == d.phantoms[i] {
      assert TurnAt(v, c.phantoms, i) && TurnAt(v, d.phantoms, i);
      var random := RandomAt(v.phantoms, PacmanPos(v.pacman), v.random, i);
      TurnIsUnique(v.maze, PacmanPos(v.pacman), i, random, v.phantoms[i], c.phantoms[i], d.phantoms[i]);
    }
    assert c.phantoms == d.phantoms;
  }

  lemma TurnIsUnique(m: Maze, pacman: Pos, i: int, random: nat, u: Unit, a: Unit, b: Unit)
    requires PhantomTurn(m, pacman, i, random, u, a) && PhantomTurn(m, pacman, i, random, u, b)
    ensures a == b
  {
    if Near(PhantomPos(u), pacman) && PlanOf(i, random).Chase? {
      AnswerIsUnique(m, PhantomPos(u), pacman, a.dir, b.dir);
    }
  }

  /** Frame i of the trace was due and played. */
  ghost predicate FrameAt(trace: seq<World>, moves: seq<Option<Dir>>, i: nat)
    requires i + 1 < |trace| <= |moves| + 1
  {
    !Over(trace[i]) && FrameStep(trace[i], moves[i], trace[i + 1])
  }

  ghost predicate Frames(trace: seq<World>, moves: seq<Option<Dir>>) {
    0 < |trace| <= |moves| + 1 && forall i :: 0 <= i < |trace| - 1 ==> FrameAt(trace, moves, i)
  }

  /** The worlds of a game, frame by frame; it stops as soon as it is over. */
  ghost predicate Played(trace: seq<World>, moves: seq<Option<Dir>>) {
    Frames(trace, moves) && (|trace| <= |moves| ==> Over(trace[|trace| - 1]))
  }

  lemma FramesSnoc(trace: seq<World>, moves: seq<Option<Dir>>, w: World)
    requires Frames(trace, moves) && |trace| <= |moves|
    requires !Over(trace[|trace| - 1]) && FrameStep(trace[|trace| - 1], moves[|trace| - 1], w)
    ensures Frames(trace + [w], moves)
  {
    forall i | 0 <= i < |trace| ensures FrameAt(trace + [w], moves, i) {
      assert i < |trace| - 1 ==> FrameAt(trace, moves, i);
    }
  }

  /** World w comes n frames after `first`: at most a life lost a frame, points for the food
      that is gone, everybody on open cells. */
  ghost predicate Later(first: World, w: World, n: nat) {
    && WorldOk(w) && w.total == first.total && w.earlier == first.earlier
    && first.lives - n <= w.lives <= first.lives
    && FoodCells(w.maze) <= FoodCells(first.maze)
  }

  lemma LaterStep(first: World, w: World, move: Option<Dir>, w': World, n: nat)
    requires Later(first, w, n) && FrameStep(w, move, w') && !Over(w)
    ensures Later(first, w', n + 1)
  {
    FrameKeepsWorld(w, move, w');
  }

  lemma {:induction false} PlayedOk(trace: seq<World>, moves: seq<Option<Dir>>, n: nat)
    requires Frames(trace, moves) && WorldOk(trace[0]) && n < |trace|
    ensures Later(trace[0], trace[n], n)
  {
    if n > 0 {
      PlayedOk(trace, moves, n - 1);
      assert FrameAt(trace, moves, n - 1);
      LaterStep(trace[0], trace[n - 1], moves[n - 1], trace[n], n - 1);
    }
  }

  // ---- the game --------------------------------------------------------

  class Game {
    const matrix: array2<Cell>
    const phantom: array<Unit>
    var pacman: Unit
    var points: int
    /** The globals of game.c. */
    var lives: int
    var total: int
    var random: nat
    /** What `total` held when the game began. */
    ghost const earlier: nat

    /** What the matrix shows. */
    ghost var maze: Maze

    /** The value of all of the above. */
    ghost function Now(): World
      reads this, phantom
    {
      World(maze, pacman, phantom[..], points, lives, total, earlier, random)
    }

    ghost predicate Valid()
      reads this, matrix, phantom
    {
      Shows(matrix, maze) && WorldOk(Now())
    }

    /** init_game on the given cells. It adds to the total of the games before, and does not set the
        phantoms' directions. */
    constructor (cells: Maze, totalBefore: nat, phantomDir: Dir)
      requires Walled(cells) && Starts(cells)
      ensures Valid() && fresh(matrix) && fresh(phantom)
      ensures Now() == World(cells, Unit(1, 1, Left, Pacman), seq(NPHANTOM, k => StartUnit(k).(dir := phantomDir)), 0, 3,
                             totalBefore + |FoodCells(cells)|, totalBefore, 0)
    {
      var grid, count := CopyCells(cells);
      var units := new Unit[NPHANTOM](k => Unit(X_START + k / 2, Y_START + k % 2, phantomDir, Phantom));
      matrix, phantom := grid, units;
      pacman := Unit(1, 1, Left, Pacman);
      points, lives, total, random := 0, 3, totalBefore + count, 0;
      earlier := totalBefore;
      maze := cells;
      new;
      forall k | 0 <= k < NPHANTOM ensures Open(cells, PhantomPos(phantom[k])) {
        assert PhantomPos(phantom[k]) == PhantomStart(k);
      }
      assert phantom[..] == seq(NPHANTOM, k => StartUnit(k).(dir := phantomDir));
    }

    /** move(): the unit takes its step; only Pacman looks for walls. */
    method Move(u: Unit, currentX: int, currentY: int) returns (r: Unit)
      requires Valid()
      requires u.kind == Pacman ==> Open(maze, Pos(currentX, currentY))
      ensures r.kind == u.kind && r.dir == u.dir
      ensures u.kind == Pacman ==> PacmanPos(r) == Stepped(maze, Pos(currentX, currentY), u.dir)
      ensures u.kind == Phantom ==> PhantomPos(r) == MazeSearch.Move(Pos(currentY, currentX), u.dir)
    {
      var x, y := currentX, currentY;
      if u.kind == Pacman {
        if u.dir == Left {
          if matrix[x, y - 1] != Wall { y := y - 1; }
        } else if u.dir == Up {
          if matrix[x - 1, y] != Wall { x := x - 1; }
        } else if u.dir == Down {
          if matrix[x + 1, y] != Wall { x := x + 1; }
        } else if u.dir == Right {
          if matrix[x, y + 1] != Wall { y := y + 1; }
        }
      } else {
        if u.dir == Left {
          x := x - 1;
        } else if u.dir == Up {
          y := y - 1;
        } else if u.dir == Down {
          y := y + 1;
        } else if u.dir == Right {
          x := x + 1;
        }
      }
      r := u.(x := x, y := y);
    }

    /** Whether Pacman can leave its cell in direction d. */
    method IsViable(d: Dir) returns (r: bool)
      requires Valid()
      ensures r <==> d != Still && Open(maze, MazeSearch.Move(PacmanPos(pacman), d))
    {
      var x, y := pacman.x, pacman.y;
      assert Open(maze, Pos(x, y));
      match d
      case Left => r := matrix[x, y - 1] != Wall;
      case Up => r := matrix[x - 1, y] != Wall;
      case Down => r := matrix[x + 1, y] != Wall;
      case Right => r := matrix[x, y + 1] != Wall;
      case Still => r := false;
    }

    /** Pacman turns when it can, then steps. */
    method StepPacman(d: Dir)
      requires Valid()
      modifies this`pacman
      ensures Valid() && pacman == OneStep(maze, old(pacman), d)
    {
      var viable := IsViable(d);
      if viable {
        pacman := pacman.(dir := d);
      }
      var x, y := pacman.x, pacman.y;
      assert Open(maze, Pos(x, y));
      pacman := Move(pacman, x, y);
    }

    /** Food on an open cell turns into ten points. */
    method EatAt(x: int, y: int)
      requires Valid() && Open(maze, Pos(x, y))
      modifies this`points, this`maze, matrix
      ensures Valid() && Now() == Fed(old(Now()), Pos(x, y))
    {
      if matrix[x, y] == Food {
        points := points + 10;
        matrix[x, y] := Empty;
        FoodEaten(maze, Pos(x, y));
        EatenKeepsShape(maze, Pos(x, y));
        forall c ensures Open(Eaten(maze, Pos(x, y)), c) <==> Open(maze, c) {
          EatenOpen(maze, Pos(x, y), c);
        }
        maze := Eaten(maze, Pos(x, y));
      }
    }

    /** Pacman steps and eats what was on the cell it left. */
    method MovePacman(d: Dir)
      requires Valid()
      modifies this`pacman, this`points, this`maze, matrix
      ensures Valid() && Now() == Walked(old(Now()), Some(d))
    {
      var x, y := pacman.x, pacman.y;
      assert Open(maze, Pos(x, y));
      StepPacman(d);
      EatAt(x, y);
    }

    /** Writes phantom i. */
    method SetPhantom(i: nat, u: Unit)
      requires Valid() && i < NPHANTOM && u.kind == Phantom && Open(maze, PhantomPos(u))
      modifies phantom
      ensures Valid() && phantom[..] == old(phantom[..])[i := u]
    {
      PhantomSet(Now(), i, u);
      ghost var us := phantom[..][i := u];
      phantom[i] := u;
      assert phantom[..] == us;
    }

    /** The distance test of move_phantoms. */
    method IsNear(i: nat) returns (near: bool)
      requires Valid() && i < NPHANTOM
      ensures near == Near(PhantomPos(phantom[i]), PacmanPos(pacman))
    {
      var px, py, pmx, pmy := phantom[i].x, phantom[i].y, pacman.y, pacman.x;
      var distance;
      if px > pmx {
        distance := if py > pmy then (px - pmx) + (py - pmy) else (px - pmx) + (pmy - py);
      } else {
        distance := if py > pmy then (pmx - px) + (py - pmy) else (pmx - px) + (pmy - py);
      }
      distance := distance - 10;
      near := distance <= 17;
    }

    /** One phantom's turn inside move_phantoms. */
    method MovePhantom(i: nat)
      requires Valid() && i < NPHANTOM
      modifies this`random, phantom
      ensures Valid() && |old(phantom[..])| == |phantom[..]| == NPHANTOM
      ensures PhantomTurn(maze, PacmanPos(pacman), i, old(random), old(phantom[..])[i], phantom[..][i])
      ensures random == old(random) + if Near(PhantomPos(old(phantom[..])[i]), PacmanPos(pacman)) then 1 else 0
      ensures phantom[..] == old(phantom[..])[i := phantom[..][i]]
    {
      var near := IsNear(i);
      if near {
        ActNear(i);
        random := random + 1;
      }
    }

    /** The turn of a phantom that is near. */
    method ActNear(i: nat)
      requires Valid() && i < NPHANTOM && Near(PhantomPos(phantom[i]), PacmanPos(pacman))
      modifies phantom
      ensures Valid() && |old(phantom[..])| == |phantom[..]| == NPHANTOM
      ensures PhantomTurn(maze, PacmanPos(pacman), i, random, old(phantom[..])[i], phantom[..][i])
      ensures phantom[..] == old(phantom[..])[i := phantom[..][i]]
    {
      var plan := ChoosePlan(i);
      match plan
      case Keep =>
      case Turn(d) => SetPhantom(i, phantom[i].(dir := d));
      case Chase => ChasePacman(i);
    }

    /** The tests of move_phantoms on the schedule of phantom i. */
    method ChoosePlan(i: nat) returns (plan: Plan)
      requires i < NPHANTOM
      ensures plan == PlanOf(i, random)
    {
      var k := random % 10;
      if i == 0 && PHANTOM1[k] % 2 != 0 {
        plan := if random < 2 then Turn(Left) else Chase;
      } else if i == 1 && PHANTOM2[k] % 2 == 0 {
        plan := if random < 4 then Turn(Left) else Chase;
      } else if i == 1 && PHANTOM2[k] % 2 != 0 {
        plan := Turn(Still);
      } else if i == 2 && PHANTOM3[k] % 2 == 0 {
        plan := if random < 1 then Turn(Left) else Chase;
      } else if i == 2 && PHANTOM3[k] % 2 != 0 {
        plan := Turn(Still);
      } else if i == 3 && PHANTOM4[k] % 2 == 0 {
        plan := Chase;
      } else if i == 3 && PHANTOM4[k] % 2 != 0 {
        plan := Turn(Still);
      } else {
        plan := Keep;
      }
    }

    /** The search with swapped coordinates, then the step. */
    method ChasePacman(i: nat)
      requires Valid() && i < NPHANTOM
      modifies phantom
      ensures Valid() && |old(phantom[..])| == |phantom[..]| == NPHANTOM
      ensures Chased(maze, PacmanPos(pacman), old(phantom[..])[i], phantom[..][i])
      ensures phantom[..] == old(phantom[..])[i := phantom[..][i]]
    {
      var dir := Bfs(matrix, phantom[i].y, phantom[i].x, pacman.x, pacman.y, maze);
      var u := Move(phantom[i].(dir := dir), phantom[i].x, phantom[i].y);
      ChasedOpen(maze, PacmanPos(pacman), phantom[i], u);
      SetPhantom(i, u);
    }

    method MovePhantoms()
      requires Valid()
      modifies this`random, phantom
      ensures Valid() && Turned(old(Now()), Now())
    {
      ghost var w := Now();
      var i := 0;
      while i < NPHANTOM
        invariant i <= NPHANTOM && Valid() && TurnsDone(w, phantom[..], random, i)
      {
        ghost var us := phantom[..];
        ghost var counter := random;
        MovePhantom(i);
        TurnsStep(w, us, counter, i, phantom[..], random);
        i := i + 1;
      }
    }

    method PlacePhantom(i: nat, j: nat)
      requires Valid() && i < 2 && j < 2
      modifies phantom
      ensures Valid() && phantom[i * 2 + j] == StartUnit(i * 2 + j)
      ensures forall k :: 0 <= k < NPHANTOM && k != i * 2 + j ==> phantom[k] == old(phantom[k])
    {
      StartOf(i, j);
      assert Open(maze, PhantomStart(i * 2 + j));
      phantom[i * 2 + j] := Unit(X_START + i, Y_START + j, Still, Phantom);
    }

    /** The phantoms of column i of the start square. */
    method PlaceColumn(i: nat)
      requires Valid() && i < 2
      modifies phantom
      ensures Valid()
      ensures forall k :: i * 2 <= k < i * 2 + 2 ==> phantom[k] == StartUnit(k)
      ensures forall k :: 0 <= k < i * 2 ==> phantom[k] == old(phantom[k])
    {
      var j := 0;
      while j < NPHANTOM / 2
        invariant j <= NPHANTOM / 2 && Valid()
        invariant forall k :: i * 2 <= k < i * 2 + j ==> phantom[k] == StartUnit(k)
        invariant forall k :: 0 <= k < i * 2 ==> phantom[k] == old(phantom[k])
      {
        PlacePhantom(i, j);
        j := j + 1;
      }
    }

    /** Everybody back to the start, standing still. */
    method Restart()
      requires Valid()
      modifies this`pacman, phantom
      ensures Valid() && Now() == Restarted(old(Now()))
    {
      pacman := Unit(1, 1, Still, Pacman);
      var i := 0;
      while i < NPHANTOM / 2
        invariant i <= NPHANTOM / 2 && Valid() && pacman == Unit(1, 1, Still, Pacman)
        invariant forall k :: 0 <= k < i * 2 ==> phantom[k] == StartUnit(k)
      {
        PlaceColumn(i);
        i := i + 1;
      }
      assert phantom[..] == seq(NPHANTOM, k => StartUnit(k));
    }

    /** The collision loop. */
    method Collide()
      requires Valid() && lives > 0
      modifies this`pacman, this`lives, phantom
      ensures Valid() && Now() == Judged(old(Now()))
    {
      ghost var w := Now();
      var i := 0;
      while i < NPHANTOM
        invariant i <= NPHANTOM && Valid() && Now() == w
        invariant forall k :: 0 <= k < i ==> PhantomPos(w.phantoms[k]) != PacmanPos(w.pacman)
      {
        assert phantom[i] == w.phantoms[i];
        if pacman.y == phantom[i].x && pacman.x == phantom[i].y {
          lives := lives - 1;
          Restart();
          return;
        }
        i := i + 1;
      }
    }

    /** One iteration of the game loop; `move` is the waiting key direction, if any. */
    method Frame(move: Option<Dir>)
      requires Valid() && lives > 0
      modifies this, matrix, phantom
      ensures Valid() && FrameStep(old(Now()), move, Now())
    {
      if move.Some? {
        MovePacman(move.value);
      }
      ghost var walked := Now();
      assert walked == Walked(old(Now()), move);
      MovePhantoms();
      ghost var turned := Now();
      assert Turned(walked, turned);
      Collide();
    }

    /** The game loop over any keys. */
    method Play(moves: seq<Option<Dir>>) returns (frames: nat, ghost trace: seq<World>)
      requires Valid()
      modifies this, matrix, phantom
      ensures Valid()
      ensures frames + 1 == |trace| && trace[0] == old(Now()) && trace[frames] == Now() && Played(trace, moves)
    {
      frames := 0;
      trace := [Now()];
      var over := IsOver();
      while !over && frames < |moves|
        invariant Valid() && |trace| == frames + 1 && Frames(trace, moves)
        invariant trace[0] == old(Now()) && trace[frames] == Now()
        invariant over <==> Over(Now())
        decreases |moves| - frames
      {
        Frame(moves[frames]);
        FramesSnoc(trace, moves, Now());
        frames := frames + 1;
        trace := trace + [Now()];
        over := IsOver();
      }
    }

    /** The conditions of the game loop. */
    method IsOver() returns (over: bool)
      requires Valid()
      ensures over <==> Over(Now())
    {
      over := !(lives > 0 && points < total * 10);
    }
  }
}
