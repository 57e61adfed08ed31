/** The maze drawn in init_game: `#` is a wall, `*` food and a blank an empty cell. */
module StartMaze {
  import opened MazeSearch
  import opened PacmanGame

  function UpperRow(i: nat): (r: string)
    ensures |r| == COLUMNS && r[0] == r[COLUMNS - 1] == '#'
  {
    match i
    case 0 => "##########" + "##########" + "##########" + "##########" + "##########"
    case 1 => "#*********" + "**********" + "**********" + "**********" + "*********#"
    case 2 => "#*####*###" + "##*#####*#" + "####*#####" + "*#####*###" + "##*#####*#"
    case 3 => "#*####*###" + "##*#####*#" + "####*#####" + "*#####*###" + "##*#####*#"
    case 4 => "#*********" + "**********" + "**********" + "**********" + "*********#"
    case 5 => "#*####*##*" + "#####*####" + "#*#####*##" + "*#####*###" + "##*#####*#"
    case 6 => "#*####*##*" + "#####*####" + "#*#####*##" + "*#####*###" + "##*#####*#"
    case 7 => "#******##*" + "***##*****" + "**##****##" + "*******##*" + "***##****#"
    case 8 => "######*###" + "##*#####*#" + "####*#####" + "*#####*##*" + "#####*####"
    case _ => "######*###" + "##*#####*#" + "####*#####" + "*#####*##*" + "#####*####"
  }

  function LowerRow(i: nat): (r: string)
    ensures |r| == COLUMNS && r[0] == r[COLUMNS - 1] == '#'
  {
    match i
    case 0 => "######*##*" + "*********#" + "#*********" + "*##****##*" + "#####*####"
    case 1 => "######*##*" + "########*#" + "#*#####*##" + "*##*#####*" + "#####*####"
    case 2 => "######*##*" + "########*#" + "#*#####*##" + "*##*#####*" + "#####*####"
    case 3 => "#*********" + "########*#" + "#*#####*##" + "*******##*" + "******####"
    case 4 => "#*####*###" + "########*#" + "#*#####*##" + "######*###" + "##*##*####"
    case 5 => "#*####*###" + "########*#" + "#****##*##" + "######*###" + "##*##*####"
    case 6 => "#***##****" + "##*******#" + "#*##******" + "****##****" + "******####"
    case 7 => "#*#*##*##*" + "##*##*##*#" + "#****#*#*#" + "*##*##*#*#" + "*#*##*   #"
    case 8 => "#*********" + "***##*****" + "**####****" + "*##****#**" + "*#****   #"
    case _ => "##########" + "##########" + "##########" + "##########" + "##########"
  }

  function Drawing(i: nat): (r: string)
    ensures |r| == COLUMNS && r[0] == r[COLUMNS - 1] == '#'
  {
    if i < 10 then UpperRow(i) else LowerRow(i - 10)
  }

  function CellOf(c: char): Cell {
    if c == '#' then Wall else if c == '*' then Food else Empty
  }

  function RowOf(text: string): Row
    requires |text| == COLUMNS
  {
    seq(COLUMNS, j requires 0 <= j < COLUMNS => CellOf(text[j]))
  }

  function Drawn(): Maze {
    seq<Row>(ROWS, i requires 0 <= i < ROWS => RowOf(Drawing(i)))
  }

  lemma FullRows(j: nat)
    requires j < COLUMNS
    ensures Drawing(0)[j] == '#' && Drawing(ROWS - 1)[j] == '#'
  {
  }

  /** The frame of the drawing is all wall. */
  lemma DrawnIsWalled()
    ensures Walled(Drawn())
  {
    forall p | Open(Drawn(), p) ensures 1 <= p.x < ROWS - 1 && 1 <= p.y < COLUMNS - 1 {
      CellAt(p.x, p.y);
      if p.x == 0 || p.x == ROWS - 1 || p.y == 0 || p.y == COLUMNS - 1 {
        BorderIsWall(p.x, p.y);
      }
    }
  }

  lemma CellAt(x: nat, y: nat)
    requires x < ROWS && y < COLUMNS
    ensures Drawn()[x][y] == CellOf(Drawing(x)[y])
  {
  }

  lemma BorderIsWall(x: nat, y: nat)
    requires x < ROWS && y < COLUMNS && (x == 0 || x == ROWS - 1 || y == 0 || y == COLUMNS - 1)
    ensures Drawing(x)[y] == '#'
  {
    FullRows(y);
  }

  lemma StartCells()
    ensures UpperRow(1)[1] == '*'
    ensures LowerRow(7)[47] == LowerRow(7)[48] == ' '
    ensures LowerRow(8)[47] == LowerRow(8)[48] == ' '
  {
  }

  /** Pacman and the phantoms start on open cells. */
  lemma DrawnStarts()
    ensures Starts(Drawn())
  {
    StartCells();
    forall k | 0 <= k < NPHANTOM ensures Open(Drawn(), PhantomStart(k)) {
      var p := PhantomStart(k);
      assert Drawing(p.x) == LowerRow(p.x - 10);
      assert Drawn()[p.x][p.y] == CellOf(LowerRow(p.x - 10)[p.y]);
    }
    assert Drawn()[1][1] == CellOf(UpperRow(1)[1]);
  }

  /** What init_game sets up. */
  ghost function FirstWorld(totalBefore: nat, phantomDir: Dir): World {
    World(Drawn(), Unit(1, 1, Left, Pacman), seq(NPHANTOM, k => StartUnit(k).(dir := phantomDir)), 0, 3,
          totalBefore + |FoodCells(Drawn())|, totalBefore, 0)
  }

  /** The program: any keys on the drawn maze. Every frame is one of the model, and the game
      stops with no life left or, if it is the first one, no food. */
  method Game(totalBefore: nat, phantomDir: Dir, moves: seq<Option<Dir>>) returns (g: PacmanGame.Game, frames: nat, ghost trace: seq<World>)
    ensures g.Valid() && 0 <= g.lives <= 3 && 3 - g.lives <= frames <= |moves|
    ensures frames + 1 == |trace| && trace[0] == FirstWorld(totalBefore, phantomDir) && trace[frames] == g.Now() && Played(trace, moves)
    ensures trace[0].pacman == Unit(1, 1, Left, Pacman) && trace[0].points == 0 && trace[0].lives == 3 && trace[0].random == 0
    ensures forall k :: 0 <= k < 4 ==> trace[0].phantoms[k] == Unit(47 + k / 2, 17 + k % 2, phantomDir, Phantom)
    ensures g.points + 10 * |FoodCells(g.maze)| == 10 * |FoodCells(Drawn())|
    ensures frames < |moves| ==> g.lives == 0 || (totalBefore == 0 && FoodCells(g.maze) == {})
  {
    DrawnIsWalled();
    DrawnStarts();
    g := new PacmanGame.Game(Drawn(), totalBefore, phantomDir);
    frames, trace := g.Play(moves);
    PlayedOk(trace, moves, frames);
    OverMeans(g.Now());
  }
}
