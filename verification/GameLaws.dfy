/** What a frame of the game does to Pacman, the phantoms, the food and the lives, in cells and numbers. */
module GameLaws {
  import opened MazeSearch
  import opened PacmanGame

  // ---- Pacman ----------------------------------------------------------

  /** A key towards an open cell turns Pacman that way and moves it there. Any other key leaves its direction,
      and it goes one cell on, unless a wall is there. Without a key it stays. */
  lemma PacmanMoves(w: World, move: Option<Dir>)
    requires WorldOk(w)
    ensures var p, u := PacmanPos(w.pacman), Walked(w, move).pacman;
      && (move.None? ==> u == w.pacman)
      && (move.Some? && move.value != Still && Open(w.maze, MazeSearch.Move(p, move.value)) ==>
            u.dir == move.value && PacmanPos(u) == MazeSearch.Move(p, move.value))
      && (move.Some? && (move.value == Still || !Open(w.maze, MazeSearch.Move(p, move.value))) ==>
            && u.dir == w.pacman.dir
            && PacmanPos(u) == if Open(w.maze, MazeSearch.Move(p, u.dir)) then MazeSearch.Move(p, u.dir) else p)
      && u.kind == Pacman
  {
  }

  /** The cell it leaves is eaten: ten points for food, and no other cell changes. */
  lemma PacmanEats(w: World, move: Option<Dir>)
    requires WorldOk(w)
    ensures var p, v := PacmanPos(w.pacman), Walked(w, move);
      && v.points == w.points + (if move.Some? && w.maze[p.x][p.y] == Food then 10 else 0)
      && (forall x, y :: 0 <= x < ROWS && 0 <= y < COLUMNS ==>
            v.maze[x][y] == if move.Some? && (x, y) == (p.x, p.y) && w.maze[x][y] == Food then Empty else w.maze[x][y])
      && v.phantoms == w.phantoms && v.lives == w.lives && v.total == w.total && v.random == w.random
  {
  }

  /** Phantom and Pacman are on one cell; a phantom has its coordinates swapped. */
  predicate Meets(phantom: Unit, pacman: Unit) {
    phantom.x == pacman.y && phantom.y == pacman.x
  }

  /** A frame: Pacman's move, the turns, and then a life is lost exactly when some phantom meets Pacman. In that
      case everybody stands still at the start; else nothing more happens. v is the world between. */
  lemma FrameLaw(w: World, move: Option<Dir>, w': World) returns (v: World)
    requires WorldOk(w) && FrameStep(w, move, w')
    ensures Turned(Walked(w, move), v) && |v.phantoms| == 4
    ensures w'.lives == w.lives - 1 <==> exists i :: 0 <= i < 4 && Meets(v.phantoms[i], v.pacman)
    ensures w'.lives == w.lives || w'.lives == w.lives - 1
    ensures w'.lives == w.lives ==> w' == v
    ensures w'.lives != w.lives ==>
      w' == v.(lives := w.lives - 1, pacman := Unit(1, 1, Still, Pacman),
               phantoms := [Unit(47, 17, Still, Phantom), Unit(47, 18, Still, Phantom), Unit(48, 17, Still, Phantom), Unit(48, 18, Still, Phantom)])
  {
    v :| Turned(Walked(w, move), v) && w' == Judged(v);
    assert Caught(v) <==> exists i :: 0 <= i < 4 && Meets(v.phantoms[i], v.pacman) by {
      forall i | 0 <= i < 4 ensures Meets(v.phantoms[i], v.pacman) <==> PhantomPos(v.phantoms[i]) == PacmanPos(v.pacman) {
      }
    }
    assert Restarted(v).phantoms ==
      [Unit(47, 17, Still, Phantom), Unit(47, 18, Still, Phantom), Unit(48, 17, Still, Phantom), Unit(48, 18, Still, Phantom)];
  }

  /** Without a catch a whole frame does this to Pacman, the points and the maze; with one, to the latter two. */
  lemma FrameMovesPacman(w: World, move: Option<Dir>, w': World)
    requires WorldOk(w) && FrameStep(w, move, w')
    ensures var p := PacmanPos(w.pacman);
      && (w'.lives == w.lives && move.None? ==> w'.pacman == w.pacman)
      && (w'.lives == w.lives && move.Some? && move.value != Still && Open(w.maze, MazeSearch.Move(p, move.value)) ==>
            w'.pacman.dir == move.value && PacmanPos(w'.pacman) == MazeSearch.Move(p, move.value))
      && (w'.lives == w.lives && move.Some? && (move.value == Still || !Open(w.maze, MazeSearch.Move(p, move.value))) ==>
            && w'.pacman.dir == w.pacman.dir
            && PacmanPos(w'.pacman) == if Open(w.maze, MazeSearch.Move(p, w.pacman.dir)) then MazeSearch.Move(p, w.pacman.dir) else p)
      && w'.points == w.points + (if move.Some? && w.maze[p.x][p.y] == Food then 10 else 0)
      && (forall x, y :: 0 <= x < ROWS && 0 <= y < COLUMNS ==>
            w'.maze[x][y] == if move.Some? && (x, y) == (p.x, p.y) && w.maze[x][y] == Food then Empty else w.maze[x][y])
  {
    var v := FrameLaw(w, move, w');
    PacmanMoves(w, move);
    PacmanEats(w, move);
  }

  // ---- phantoms --------------------------------------------------------

  /** At most 27 steps away, walls not counted. */
  predicate Close(phantom: Unit, pacman: Pos) {
    Abs(phantom.y - pacman.x) + Abs(phantom.x - pacman.y) <= 27
  }

  /** The counters in which each phantom searches for Pacman. */
  predicate Hunts(i: int, random: nat) {
    var k := random % 10;
    match i
    case 0 => random >= 2 && (k == 2 || k == 3 || k == 4 || k == 6 || k == 7)
    case 1 => random >= 4 && (k == 0 || k == 1 || k == 5 || k == 8 || k == 9)
    case _ => k == 2 || k == 3 || k == 6 || k == 7
  }

  /** The direction of a close phantom that does not hunt: phantom 0 keeps its own, phantom 1 looks left in the
      first two counters, and otherwise they stand still. */
  function IdleDir(i: int, random: nat, d: Dir): Dir {
    if i == 0 then d else if i == 1 && random < 2 then Left else Still
  }

  lemma PlanLaw(i: int, random: nat)
    requires 0 <= i < NPHANTOM
    ensures PlanOf(i, random) == Chase <==> Hunts(i, random)
    ensures !Hunts(i, random) ==> PlanOf(i, random) == if i == 0 then Keep else Turn(IdleDir(i, random, Still))
  {
  }

  /** A phantom moves exactly when it is close, hunts, and a way leads to Pacman from another cell; it then
      enters an open cell exactly one step closer. */
  lemma HuntLaw(m: Maze, pacman: Pos, i: int, random: nat, u: Unit, u': Unit)
    requires PhantomTurn(m, pacman, i, random, u, u') && 0 <= i < NPHANTOM
    ensures PhantomPos(u') != PhantomPos(u) <==>
      Close(u, pacman) && Hunts(i, random) && PhantomPos(u) != pacman && Reachable(m, PhantomPos(u), pacman)
    ensures PhantomPos(u') != PhantomPos(u) ==>
      Open(m, PhantomPos(u')) && exists n: nat :: n > 0 && Distance(m, PhantomPos(u), pacman, n) && Distance(m, PhantomPos(u'), pacman, n - 1)
    ensures u'.dir == if !Close(u, pacman) then u.dir else if !Hunts(i, random) then IdleDir(i, random, u.dir) else u'.dir
    ensures PhantomPos(u') == PhantomPos(u) && Close(u, pacman) && Hunts(i, random) ==> u'.dir == Still
  {
    PlanLaw(i, random);
    if Close(u, pacman) && Hunts(i, random) && u'.dir != Still {
      var n := AnswerIsCloser(m, PhantomPos(u), pacman, u'.dir);
    }
  }

  /** The phantoms close to Pacman's cell. */
  ghost function CloseOnes(us: seq<Unit>, pacman: Pos): set<int> {
    set i | 0 <= i < |us| && Close(us[i], pacman)
  }

  lemma {:induction false} CounterGrows(us: seq<Unit>, pacman: Pos, random: nat, i: nat)
    requires i <= |us|
    ensures RandomAt(us, pacman, random, i) == random + |CloseOnes(us[..i], pacman)|
  {
    if i == 0 {
      assert CloseOnes(us[..0], pacman) == {};
    } else {
      CounterGrows(us, pacman, random, i - 1);
      assert CloseOnes(us[..i], pacman) == CloseOnes(us[..i - 1], pacman) + if Close(us[i - 1], pacman) then {i - 1} else {};
    }
  }

  /** In a frame the counter grows by one for each phantom close to Pacman, and each phantom takes its turn at the
      counter that the earlier ones left. */
  lemma TurnsLaw(w: World, v: World, i: int)
    requires Turned(w, v) && 0 <= i < NPHANTOM
    ensures v.random == w.random + |CloseOnes(w.phantoms, PacmanPos(w.pacman))|
    ensures v.pacman == w.pacman && v.maze == w.maze && v.points == w.points && v.lives == w.lives && v.total == w.total
    ensures PhantomPos(v.phantoms[i]) != PhantomPos(w.phantoms[i]) <==>
      && Close(w.phantoms[i], PacmanPos(w.pacman))
      && Hunts(i, w.random + |CloseOnes(w.phantoms[..i], PacmanPos(w.pacman))|)
      && PhantomPos(w.phantoms[i]) != PacmanPos(w.pacman)
      && Reachable(w.maze, PhantomPos(w.phantoms[i]), PacmanPos(w.pacman))
  {
    var p := PacmanPos(w.pacman);
    CounterGrows(w.phantoms, p, w.random, i);
    CounterGrows(w.phantoms, p, w.random, NPHANTOM);
    assert w.phantoms[..NPHANTOM] == w.phantoms;
    assert TurnAt(w, v.phantoms, i);
    HuntLaw(w.maze, p, i, RandomAt(w.phantoms, p, w.random, i), w.phantoms[i], v.phantoms[i]);
  }
}
