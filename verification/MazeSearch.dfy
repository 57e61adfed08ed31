/** The breadth-first search of game.c, from a phantom to Pacman. */
module MazeSearch {
  import opened Counting

  const ROWS := 20
  const COLUMNS := 50
  const MAX_QUEUE_SIZE := ROWS * COLUMNS

  datatype Cell = Wall | Unset | Food | Empty
  datatype Dir = Still | Up | Down | Left | Right
  datatype Pos = Pos(x: int, y: int)

  type Row = r: seq<Cell> | |r| == COLUMNS witness seq(COLUMNS, _ => Wall)
  const WALL_ROW: Row := seq(COLUMNS, _ => Wall)
  type Maze = m: seq<Row> | |m| == ROWS witness seq<Row>(ROWS, _ => WALL_ROW)

  predicate InBounds(p: Pos) {
    0 <= p.x < ROWS && 0 <= p.y < COLUMNS
  }

  predicate Open(m: Maze, p: Pos) {
    InBounds(p) && m[p.x][p.y] != Wall
  }

  function Move(p: Pos, d: Dir): Pos {
    match d
    case Still => p
    case Up => Pos(p.x - 1, p.y)
    case Down => Pos(p.x + 1, p.y)
    case Left => Pos(p.x, p.y - 1)
    case Right => Pos(p.x, p.y + 1)
  }

  /** The number of a direction in its C enumeration. */
  function DirNo(d: Dir): nat {
    match d
    case Still => 0
    case Up => 1
    case Down => 2
    case Left => 3
    case Right => 4
  }

  // ---- walks -----------------------------------------------------------

  function EndOf(a: Pos, w: seq<Dir>): Pos
    decreases |w|
  {
    if w == [] then a else Move(EndOf(a, w[..|w| - 1]), w[|w| - 1])
  }

  /** Every step of w from a leads to a cell of the maze that is no wall. */
  ghost predicate Walk(m: Maze, a: Pos, w: seq<Dir>)
    decreases |w|
  {
    w == [] || (Walk(m, a, w[..|w| - 1]) && w[|w| - 1] != Still && Open(m, EndOf(a, w)))
  }

  ghost predicate Leads(m: Maze, a: Pos, b: Pos, w: seq<Dir>) {
    Walk(m, a, w) && EndOf(a, w) == b
  }

  /** Orders walks by length, and walks of one length by their first step. */
  function Cost(w: seq<Dir>): nat {
    if w == [] then 0 else 5 * |w| + DirNo(w[0])
  }

  /** The cost of a walk of cost k with one more step. */
  function NextCost(k: nat, d: Dir): nat {
    if k == 0 then 5 + DirNo(d) else k + 5
  }

  /** A shortest walk, and among the shortest ones with the least first step. */
  ghost predicate Best(m: Maze, a: Pos, b: Pos, w: seq<Dir>) {
    Leads(m, a, b, w) && forall v :: Leads(m, a, b, v) ==> Cost(w) <= Cost(v)
  }

  ghost predicate Reachable(m: Maze, a: Pos, b: Pos) {
    exists w :: Leads(m, a, b, w)
  }

  /** The answer of the search: the first step of the best walk, Still exactly when there is
      no walk or none is needed. */
  ghost predicate Answers(m: Maze, a: Pos, b: Pos, r: Dir) {
    && (r == Still <==> a == b || !Reachable(m, a, b))
    && (r != Still ==> exists w :: Best(m, a, b, w) && w != [] && w[0] == r)
  }

  lemma WalkSnoc(m: Maze, a: Pos, w: seq<Dir>, d: Dir)
    ensures EndOf(a, w + [d]) == Move(EndOf(a, w), d)
    ensures Walk(m, a, w + [d]) <==> Walk(m, a, w) && d != Still && Open(m, Move(EndOf(a, w), d))
    ensures Cost(w + [d]) == NextCost(Cost(w), d)
  {
    assert (w + [d])[..|w|] == w;
  }

  lemma {:induction false} EndCons(a: Pos, d: Dir, v: seq<Dir>)
    ensures EndOf(a, [d] + v) == EndOf(Move(a, d), v)
    decreases |v|
  {
    var w := [d] + v;
    if v == [] {
      assert w[..|w| - 1] == [];
    } else {
      EndCons(a, d, v[..|v| - 1]);
      assert w[..|w| - 1] == [d] + v[..|v| - 1];
    }
  }

  lemma {:induction false} WalkCons(m: Maze, a: Pos, d: Dir, v: seq<Dir>)
    ensures EndOf(a, [d] + v) == EndOf(Move(a, d), v)
    ensures Walk(m, a, [d] + v) <==> d != Still && Open(m, Move(a, d)) && Walk(m, Move(a, d), v)
    decreases |v|
  {
    var w := [d] + v;
    EndCons(a, d, v);
    if v == [] {
      assert w[..|w| - 1] == [];
      assert EndOf(Move(a, d), v) == Move(a, d);
    } else {
      WalkCons(m, a, d, v[..|v| - 1]);
      assert w[..|w| - 1] == [d] + v[..|v| - 1];
    }
  }

  /** A best walk is a shortest one, and no shortest walk starts in an earlier direction. */
  lemma BestIsShortest(m: Maze, a: Pos, b: Pos, w: seq<Dir>, v: seq<Dir>)
    requires Best(m, a, b, w) && Leads(m, a, b, v)
    ensures |w| <= |v|
    ensures |w| == |v| > 0 ==> DirNo(w[0]) <= DirNo(v[0])
  {
    CostIsZeroOrMore(m, a, w);
    CostIsZeroOrMore(m, a, v);
  }

  /** The search has one right answer. */
  lemma AnswerIsUnique(m: Maze, a: Pos, b: Pos, r: Dir, r': Dir)
    requires Answers(m, a, b, r) && Answers(m, a, b, r')
    ensures r == r'
  {
    if r != Still {
      var w :| Best(m, a, b, w) && w != [] && w[0] == r;
      var v :| Best(m, a, b, v) && v != [] && v[0] == r';
      CostDecides(m, a, w, v);
    }
  }

  /** Of several shortest walks the answer follows one that starts up, else down, else left, else right. */
  lemma TiesGoUpDownLeftRight(m: Maze, a: Pos, b: Pos, r: Dir, v: seq<Dir>)
    requires Answers(m, a, b, r) && a != b
    requires Leads(m, a, b, v) && Distance(m, a, b, |v|)
    ensures v != [] && v[0] != Still && r != Still
    ensures v[0] == Up ==> r == Up
    ensures v[0] == Down ==> r == Up || r == Down
    ensures v[0] == Left ==> r == Up || r == Down || r == Left
  {
    assert Reachable(m, a, b);
    var w :| Best(m, a, b, w) && w != [] && w[0] == r;
    BestIsShortest(m, a, b, w, v);
    CostIsZeroOrMore(m, a, v);
    CostIsZeroOrMore(m, a, w);
  }

  lemma CostDecides(m: Maze, a: Pos, w: seq<Dir>, v: seq<Dir>)
    requires Walk(m, a, w) && Walk(m, a, v) && w != [] && v != [] && Cost(w) == Cost(v)
    ensures w[0] == v[0]
  {
    CostIsZeroOrMore(m, a, w);
    CostIsZeroOrMore(m, a, v);
  }

  /** b is n steps from a, and no fewer. */
  ghost predicate Distance(m: Maze, a: Pos, b: Pos, n: nat) {
    && (exists w :: Leads(m, a, b, w) && |w| == n)
    && (forall w :: Leads(m, a, b, w) ==> n <= |w|)
  }

  /** Taking the answered step leads to an open cell one step closer to the target. */
  lemma AnswerIsCloser(m: Maze, a: Pos, b: Pos, r: Dir) returns (n: nat)
    requires Answers(m, a, b, r) && r != Still
    ensures Open(m, Move(a, r))
    ensures n > 0 && Distance(m, a, b, n) && Distance(m, Move(a, r), b, n - 1)
  {
    var w :| Best(m, a, b, w) && w != [] && w[0] == r;
    n := |w|;
    assert w == [r] + w[1..];
    WalkCons(m, a, r, w[1..]);
    assert Leads(m, Move(a, r), b, w[1..]);
    forall v | Leads(m, a, b, v) ensures |w| <= |v| {
      BestIsShortest(m, a, b, w, v);
    }
    forall v | Leads(m, Move(a, r), b, v) ensures n - 1 <= |v| {
      WalkCons(m, a, r, v);
      assert Leads(m, a, b, [r] + v);
    }
  }

  // ---- the queue -------------------------------------------------------

  /** A queued node with the walk by which the search found it. */
  datatype Found = Found(pos: Pos, dir: Dir, walk: seq<Dir>)

  ghost predicate FoundOk(m: Maze, a: Pos, f: Found) {
    && Leads(m, a, f.pos, f.walk) && InBounds(f.pos)
    && f.dir == if f.walk == [] then Still else f.walk[0]
  }

  ghost predicate Sorted(q: seq<Found>) {
    forall i, j :: 0 <= i <= j < |q| ==> Cost(q[i].walk) <= Cost(q[j].walk)
  }

  ghost predicate DistinctCells(q: seq<Found>) {
    forall i, j :: 0 <= i < j < |q| ==> q[i].pos != q[j].pos
  }

  /** Position p is queued at a cost of at most k. */
  ghost predicate Queued(q: seq<Found>, p: Pos, k: nat) {
    exists j :: 0 <= j < |q| && q[j].pos == p && Cost(q[j].walk) <= k
  }

  /** The neighbour of node f in direction d is a wall or queued at no more than one step more. */
  ghost predicate Covered(m: Maze, q: seq<Found>, f: Found, d: Dir) {
    Open(m, Move(f.pos, d)) ==> Queued(q, Move(f.pos, d), NextCost(Cost(f.walk), d))
  }

  ghost predicate Expanded(m: Maze, q: seq<Found>, f: Found) {
    forall d :: d != Still ==> Covered(m, q, f, d)
  }

  /** The queue: nodes before `front` are expanded. */
  ghost predicate QueueOk(m: Maze, a: Pos, q: seq<Found>, front: nat) {
    && |q| > 0 && q[0] == Found(a, Still, []) && front <= |q|
    && (forall i :: 0 <= i < |q| ==> FoundOk(m, a, q[i]))
    && DistinctCells(q) && Sorted(q)
    && (forall i :: 0 <= i < front ==> Expanded(m, q, q[i]))
  }

  /** No queued node costs more than k. */
  ghost predicate CostsUpTo(q: seq<Found>, k: nat) {
    forall i :: 0 <= i < |q| ==> Cost(q[i].walk) <= k
  }

  lemma NextCostGrows(j: nat, k: nat, d: Dir)
    requires j <= k && (j == 0 || j > 5) && (k == 0 || k > 5) && d != Still
    ensures NextCost(j, d) <= NextCost(k, d)
    ensures j == 0 < k ==> NextCost(j, Right) < NextCost(k, d)
    ensures 0 < j ==> NextCost(j, Right) <= NextCost(k, d)
  {
  }

  lemma CostIsZeroOrMore(m: Maze, a: Pos, w: seq<Dir>)
    requires Walk(m, a, w)
    ensures Cost(w) == 0 || Cost(w) > 5
    ensures w != [] ==> Cost(w) % 5 == DirNo(w[0]) && Cost(w) / 5 == |w| && w[0] != Still
    decreases |w|
  {
    if w != [] {
      FirstIsStep(m, a, w);
    }
  }

  lemma {:induction false} FirstIsStep(m: Maze, a: Pos, w: seq<Dir>)
    requires Walk(m, a, w) && w != []
    ensures w[0] != Still
    decreases |w|
  {
    if |w| > 1 {
      FirstIsStep(m, a, w[..|w| - 1]);
    }
  }

  /** A walk ends at a queued cell that costs no more, or costs at least the first unexpanded node. */
  lemma {:induction false} WalkCovered(m: Maze, a: Pos, q: seq<Found>, front: nat, w: seq<Dir>)
    requires QueueOk(m, a, q, front) && Walk(m, a, w)
    ensures Queued(q, EndOf(a, w), Cost(w)) || (front < |q| && Cost(q[front].walk) <= Cost(w))
    decreases |w|
  {
    if w == [] {
      assert q[0].pos == EndOf(a, w);
    } else {
      var v, d := w[..|w| - 1], w[|w| - 1];
      assert w == v + [d];
      WalkSnoc(m, a, v, d);
      WalkCovered(m, a, q, front, v);
      CostIsZeroOrMore(m, a, v);
      if Queued(q, EndOf(a, v), Cost(v)) {
        var j :| 0 <= j < |q| && q[j].pos == EndOf(a, v) && Cost(q[j].walk) <= Cost(v);
        if j < front {
          assert Expanded(m, q, q[j]) && Covered(m, q, q[j], d);
          assert FoundOk(m, a, q[j]);
          CostIsZeroOrMore(m, a, q[j].walk);
          NextCostGrows(Cost(q[j].walk), Cost(v), d);
        }
      }
    }
  }

  /** The node taken from the queue carries a best walk to its cell. */
  lemma FrontIsBest(m: Maze, a: Pos, q: seq<Found>, front: nat)
    requires QueueOk(m, a, q, front) && front < |q|
    ensures Best(m, a, q[front].pos, q[front].walk)
  {
    assert FoundOk(m, a, q[front]);
    forall v | Leads(m, a, q[front].pos, v) ensures Cost(q[front].walk) <= Cost(v) {
      WalkCovered(m, a, q, front, v);
      if Queued(q, EndOf(a, v), Cost(v)) {
        var j :| 0 <= j < |q| && q[j].pos == EndOf(a, v) && Cost(q[j].walk) <= Cost(v);
      }
    }
  }

  /** Once every node is expanded, what is not queued is not reachable. */
  lemma ExhaustedMeansUnreachable(m: Maze, a: Pos, q: seq<Found>, b: Pos)
    requires QueueOk(m, a, q, |q|)
    requires forall i :: 0 <= i < |q| ==> q[i].pos != b
    ensures !Reachable(m, a, b) && a != b
  {
    assert q[0].pos == a;
    forall w | Leads(m, a, b, w) ensures false {
      WalkCovered(m, a, q, |q|, w);
    }
  }

  /** Distinct cells fit the queue array. */
  lemma CellsFit(q: seq<Found>)
    requires DistinctCells(q) && forall i :: 0 <= i < |q| ==> InBounds(q[i].pos)
    ensures |q| <= MAX_QUEUE_SIZE
  {
    var codes := seq(|q|, i requires 0 <= i < |q| => q[i].pos.x * COLUMNS + q[i].pos.y);
    forall i, j | 0 <= i < j < |codes| ensures codes[i] != codes[j] {
      assert q[i].pos != q[j].pos;
    }
    SeqSetSize(codes);
    BoundedSize((set c: int | c in codes), 0, MAX_QUEUE_SIZE);
  }

  // ---- one step of the search ------------------------------------------

  lemma QueuedGrows(q: seq<Found>, f: Found, p: Pos, k: nat)
    requires Queued(q, p, k)
    ensures Queued(q + [f], p, k)
  {
    var j :| 0 <= j < |q| && q[j].pos == p && Cost(q[j].walk) <= k;
    assert (q + [f])[j].pos == p;
  }

  lemma ExpandedGrows(m: Maze, q: seq<Found>, f: Found, g: Found)
    requires Expanded(m, q, g)
    ensures Expanded(m, q + [f], g)
  {
    forall d | d != Still ensures Covered(m, q + [f], g, d) {
      CoveredGrows(m, q, f, g, d);
    }
  }

  lemma CoveredGrows(m: Maze, q: seq<Found>, f: Found, g: Found, d: Dir)
    requires Covered(m, q, g, d)
    ensures Covered(m, q + [f], g, d)
  {
    if Open(m, Move(g.pos, d)) {
      QueuedGrows(q, f, Move(g.pos, d), NextCost(Cost(g.walk), d));
    }
  }

  /** The node found from f in direction d. */
  function Neighbour(f: Found, d: Dir): Found {
    Found(Move(f.pos, d), if f.dir == Still then d else f.dir, f.walk + [d])
  }

  lemma NeighbourOk(m: Maze, a: Pos, f: Found, d: Dir)
    requires FoundOk(m, a, f) && d != Still && Open(m, Move(f.pos, d))
    ensures FoundOk(m, a, Neighbour(f, d)) && Cost(Neighbour(f, d).walk) == NextCost(Cost(f.walk), d)
  {
    WalkSnoc(m, a, f.walk, d);
    if f.walk != [] {
      FirstIsStep(m, a, f.walk);
    }
  }

  /** Queueing an unvisited open neighbour of node c. */
  lemma NodeAdded(m: Maze, a: Pos, q: seq<Found>, c: nat, d: Dir)
    requires QueueOk(m, a, q, c) && c < |q| && d != Still && Open(m, Move(q[c].pos, d))
    requires CostsUpTo(q, NextCost(Cost(q[c].walk), d))
    requires forall i :: 0 <= i < |q| ==> q[i].pos != Move(q[c].pos, d)
    ensures var q' := q + [Neighbour(q[c], d)];
      QueueOk(m, a, q', c) && CostsUpTo(q', NextCost(Cost(q[c].walk), d)) && Covered(m, q', q[c], d)
      && |q'| <= MAX_QUEUE_SIZE
  {
    var f := Neighbour(q[c], d);
    var q' := q + [f];
    assert FoundOk(m, a, q[c]);
    NeighbourOk(m, a, q[c], d);
    forall i | 0 <= i < |q'| ensures FoundOk(m, a, q'[i]) {
      assert i < |q| ==> FoundOk(m, a, q[i]);
    }
    forall i | 0 <= i < c ensures Expanded(m, q', q'[i]) {
      ExpandedGrows(m, q, f, q[i]);
    }
    assert q'[|q|].pos == Move(q[c].pos, d);
    CellsFit(q');
  }

  /** A neighbour that is already queued costs no more than the way through node c. */
  lemma NodeKnown(m: Maze, q: seq<Found>, c: nat, d: Dir, j: nat)
    requires c < |q| && j < |q| && q[j].pos == Move(q[c].pos, d)
    requires CostsUpTo(q, NextCost(Cost(q[c].walk), d))
    ensures Covered(m, q, q[c], d)
  {
  }

  function DirAt(n: nat): Dir {
    if n == 0 then Up else if n == 1 then Down else if n == 2 then Left else Right
  }

  /** The first n directions of node c are handled. */
  ghost predicate Half(m: Maze, q: seq<Found>, c: nat, n: nat)
    requires c < |q|
  {
    && CostsUpTo(q, NextCost(Cost(q[c].walk), DirAt(n)))
    && (forall i :: 0 <= i < n ==> Covered(m, q, q[c], DirAt(i)))
  }

  /** Between two nodes no queued cost passes one step from the last expanded one. */
  ghost predicate Bounded(q: seq<Found>, front: nat) {
    if front == 0 || front > |q| then |q| == 1 else CostsUpTo(q, NextCost(Cost(q[front - 1].walk), Right))
  }

  lemma HalfStarts(m: Maze, a: Pos, q: seq<Found>, front: nat)
    requires QueueOk(m, a, q, front) && Bounded(q, front) && front < |q|
    ensures Half(m, q, front, 0)
  {
    if front > 0 {
      assert FoundOk(m, a, q[front - 1]) && FoundOk(m, a, q[front]);
      CostIsZeroOrMore(m, a, q[front - 1].walk);
      CostIsZeroOrMore(m, a, q[front].walk);
      assert q[0].pos != q[front].pos;
      NextCostGrows(Cost(q[front - 1].walk), Cost(q[front].walk), Up);
    }
  }

  lemma HalfEnds(m: Maze, a: Pos, q: seq<Found>, c: nat)
    requires QueueOk(m, a, q, c) && c < |q| && Half(m, q, c, 4)
    ensures QueueOk(m, a, q, c + 1) && Bounded(q, c + 1)
  {
    forall d | d != Still ensures Covered(m, q, q[c], d) {
      assert Covered(m, q, q[c], DirAt(0)) && Covered(m, q, q[c], DirAt(1))
          && Covered(m, q, q[c], DirAt(2)) && Covered(m, q, q[c], DirAt(3));
    }
    assert Expanded(m, q, q[c]);
  }

  lemma HalfGrows(m: Maze, q: seq<Found>, c: nat, n: nat, q': seq<Found>)
    requires c < |q| && n < 4 && Half(m, q, c, n)
    requires q' == q || q' == q + [Neighbour(q[c], DirAt(n))]
    requires CostsUpTo(q', NextCost(Cost(q[c].walk), DirAt(n))) && Covered(m, q', q[c], DirAt(n))
    ensures Half(m, q', c, n + 1)
  {
    forall i | 0 <= i < n ensures Covered(m, q', q[c], DirAt(i)) {
      if q' != q {
        CoveredGrows(m, q, Neighbour(q[c], DirAt(n)), q[c], DirAt(i));
      }
    }
  }

  // ---- the search ------------------------------------------------------

  /** struct node. */
  datatype Node = Node(x: int, y: int, direction: Dir)

  /** The matrix of the game holds maze m. */
  ghost predicate Shows(matrix: array2<Cell>, m: Maze)
    reads matrix
  {
    && matrix.Length0 == ROWS && matrix.Length1 == COLUMNS
    && (forall x, y :: 0 <= x < ROWS && 0 <= y < COLUMNS ==> matrix[x, y] == m[x][y])
  }

  /** The arrays hold the queue: node i is entry i, and exactly the queued cells are visited. */
  ghost predicate Holds(q: seq<Found>, nodes: seq<Node>, queue: seq<int>, rear: int) {
    && |q| == rear <= |nodes| && rear <= |queue|
    && (forall i :: 0 <= i < rear ==> nodes[i] == Node(q[i].pos.x, q[i].pos.y, q[i].dir))
    && (forall i :: 0 <= i < rear ==> queue[i] == i)
  }

  lemma HoldsAt(q: seq<Found>, nodes: seq<Node>, queue: seq<int>, rear: int, i: nat)
    requires Holds(q, nodes, queue, rear) && i < rear
    ensures queue[i] == i && nodes[i] == Node(q[i].pos.x, q[i].pos.y, q[i].dir)
  {
  }

  ghost predicate Visits(q: seq<Found>, visited: array2<int>)
    requires visited.Length0 == ROWS && visited.Length1 == COLUMNS
    reads visited
  {
    forall x, y :: 0 <= x < ROWS && 0 <= y < COLUMNS ==>
      (visited[x, y] != 0 <==> exists i :: 0 <= i < |q| && q[i].pos == Pos(x, y))
  }

  /** The arrays of the search hold the queue. */
  ghost predicate Stored(q: seq<Found>, visited: array2<int>, nodes: array<Node>, queue: array<int>, rear: int)
    reads visited, nodes, queue
  {
    && visited.Length0 == ROWS && visited.Length1 == COLUMNS && nodes.Length == queue.Length == MAX_QUEUE_SIZE
    && Holds(q, nodes[..], queue[..], rear) && Visits(q, visited)
  }

  /** Between two iterations of the outer loop. */
  ghost predicate Searching(m: Maze, a: Pos, b: Pos, q: seq<Found>, front: nat) {
    && QueueOk(m, a, q, front) && Bounded(q, front)
    && (forall i :: 0 <= i < front ==> q[i].pos != b)
  }

  lemma SearchStarts(m: Maze, a: Pos, b: Pos)
    requires InBounds(a)
    ensures Searching(m, a, b, [Found(a, Still, [])], 0)
  {
  }

  /** Stores a new node in the arrays and marks its cell. */
  method Enqueue(visited: array2<int>, nodes: array<Node>, queue: array<int>, rear: int, node: Node,
                 ghost q: seq<Found>, ghost f: Found)
    requires Stored(q, visited, nodes, queue, rear) && rear < MAX_QUEUE_SIZE
    requires node == Node(f.pos.x, f.pos.y, f.dir) && InBounds(f.pos)
    modifies visited, nodes, queue
    ensures Stored(q + [f], visited, nodes, queue, rear + 1)
  {
    nodes[rear] := node;
    queue[rear] := rear;
    visited[node.x, node.y] := 1;
    forall x, y | 0 <= x < ROWS && 0 <= y < COLUMNS
      ensures visited[x, y] != 0 <==> exists i :: 0 <= i < |q + [f]| && (q + [f])[i].pos == Pos(x, y)
    {
      assert (q + [f])[|q|] == f;
      assert forall i :: 0 <= i < |q| ==> (q + [f])[i] == q[i];
    }
  }

  /** The arrays with the start as their only node. */
  method Prepare(startX: int, startY: int) returns (visited: array2<int>, nodes: array<Node>, queue: array<int>)
    requires InBounds(Pos(startX, startY))
    ensures fresh(visited) && fresh(nodes) && fresh(queue)
    ensures Stored([Found(Pos(startX, startY), Still, [])], visited, nodes, queue, 1)
  {
    visited := new int[ROWS, COLUMNS]((_, _) => 0);
    nodes := new Node[MAX_QUEUE_SIZE];
    queue := new int[MAX_QUEUE_SIZE];
    ghost var start := Found(Pos(startX, startY), Still, []);
    Enqueue(visited, nodes, queue, 0, Node(startX, startY, Still), [], start);
    assert [] + [start] == [start];
  }

  /** The node at a place of the queue. */
  method Fetch(visited: array2<int>, nodes: array<Node>, queue: array<int>, rear: int, i: nat, ghost q: seq<Found>) returns (node: Node)
    requires Stored(q, visited, nodes, queue, rear) && i < rear
    ensures node == Node(q[i].pos.x, q[i].pos.y, q[i].dir)
  {
    HoldsAt(q, nodes[..], queue[..], rear, i);
    var current := queue[i];
    node := nodes[current];
  }

  /** One iteration of the outer loop: the target is found, or the node at `front` is expanded. */
  method Round(matrix: array2<Cell>, visited: array2<int>, nodes: array<Node>, queue: array<int>, front: nat, rear0: int,
               targetX: int, targetY: int, ghost q0: seq<Found>, ghost m: Maze, ghost a: Pos)
    returns (found: bool, r: Dir, ghost q: seq<Found>, rear: int)
    requires Shows(matrix, m) && Stored(q0, visited, nodes, queue, rear0) && matrix as object != visited
    requires front < rear0 && Searching(m, a, Pos(targetX, targetY), q0, front)
    modifies visited, nodes, queue
    ensures found ==> Answers(m, a, Pos(targetX, targetY), r)
    ensures !found ==> rear0 <= rear == |q| && rear <= MAX_QUEUE_SIZE
    ensures !found ==> Stored(q, visited, nodes, queue, rear) && Searching(m, a, Pos(targetX, targetY), q, front + 1)
  {
    q, rear, found, r := q0, rear0, false, Still;
    var node := Fetch(visited, nodes, queue, rear, front, q);
    if node.x == targetX && node.y == targetY {
      FrontAnswers(m, a, q, front);
      found, r := true, node.direction;
    } else {
      q, rear := Expand(matrix, visited, nodes, queue, front, rear, q, m, a, Pos(targetX, targetY));
    }
  }

  /** enum t_dir bfs on the maze m: positions are (row, column). */
  method Bfs(matrix: array2<Cell>, startX: int, startY: int, targetX: int, targetY: int, ghost m: Maze) returns (r: Dir)
    requires Shows(matrix, m) && InBounds(Pos(startX, startY))
    ensures Answers(m, Pos(startX, startY), Pos(targetX, targetY), r)
  {
    ghost var a, b := Pos(startX, startY), Pos(targetX, targetY);
    var visited, nodes, queue := Prepare(startX, startY);
    ghost var q := [Found(a, Still, [])];
    var front, rear := 0, 1;
    SearchStarts(m, a, b);
    while front != rear
      invariant 0 <= front <= rear == |q| && rear <= MAX_QUEUE_SIZE
      invariant Shows(matrix, m)
      invariant Stored(q, visited, nodes, queue, rear)
      invariant Searching(m, a, b, q, front)
      decreases MAX_QUEUE_SIZE - front
    {
      var found;
      found, r, q, rear := Round(matrix, visited, nodes, queue, front, rear, targetX, targetY, q, m, a);
      if found {
        return;
      }
      front := front + 1;
    }
    ExhaustedAnswers(m, a, q, b);
    return Still;
  }

  lemma FrontAnswers(m: Maze, a: Pos, q: seq<Found>, front: nat)
    requires QueueOk(m, a, q, front) && front < |q|
    ensures Answers(m, a, q[front].pos, q[front].dir)
  {
    var f := q[front];
    FrontIsBest(m, a, q, front);
    assert FoundOk(m, a, f);
    if f.walk != [] {
      FirstIsStep(m, a, f.walk);
      assert Best(m, a, f.pos, f.walk);
      assert f.pos != a by {
        assert Leads(m, a, a, []);
        assert f.pos == a ==> Leads(m, a, f.pos, []);
      }
    }
    assert Leads(m, a, f.pos, f.walk);
  }

  lemma ExhaustedAnswers(m: Maze, a: Pos, q: seq<Found>, b: Pos)
    requires Searching(m, a, b, q, |q|)
    ensures Answers(m, a, b, Still)
  {
    ExhaustedMeansUnreachable(m, a, q, b);
  }

  /** Inside the inner loop: n directions of node c are handled. */
  ghost predicate Expanding(m: Maze, a: Pos, b: Pos, q: seq<Found>, c: nat, n: nat) {
    && QueueOk(m, a, q, c) && c < |q| && Half(m, q, c, n)
    && (forall i :: 0 <= i <= c ==> q[i].pos != b)
  }

  lemma ExpandingStarts(m: Maze, a: Pos, b: Pos, q: seq<Found>, c: nat)
    requires Searching(m, a, b, q, c) && c < |q| && q[c].pos != b
    ensures Expanding(m, a, b, q, c, 0)
  {
    HalfStarts(m, a, q, c);
  }

  lemma ExpandingEnds(m: Maze, a: Pos, b: Pos, q: seq<Found>, c: nat)
    requires Expanding(m, a, b, q, c, 4)
    ensures Searching(m, a, b, q, c + 1)
  {
    HalfEnds(m, a, q, c);
  }

  lemma ExpandingAdds(m: Maze, a: Pos, b: Pos, q: seq<Found>, c: nat, n: nat)
    requires Expanding(m, a, b, q, c, n) && n < 4 && Open(m, Move(q[c].pos, DirAt(n)))
    requires forall i :: 0 <= i < |q| ==> q[i].pos != Move(q[c].pos, DirAt(n))
    ensures Expanding(m, a, b, q + [Neighbour(q[c], DirAt(n))], c, n + 1) && |q| < MAX_QUEUE_SIZE
  {
    NodeAdded(m, a, q, c, DirAt(n));
    HalfGrows(m, q, c, n, q + [Neighbour(q[c], DirAt(n))]);
  }

  lemma ExpandingSkips(m: Maze, a: Pos, b: Pos, q: seq<Found>, c: nat, n: nat)
    requires Expanding(m, a, b, q, c, n) && n < 4
    requires var p := Move(q[c].pos, DirAt(n)); !Open(m, p) || exists j :: 0 <= j < |q| && q[j].pos == p
    ensures Expanding(m, a, b, q, c, n + 1)
  {
    var p := Move(q[c].pos, DirAt(n));
    if j :| 0 <= j < |q| && q[j].pos == p {
      NodeKnown(m, q, c, DirAt(n), j);
    }
    HalfGrows(m, q, c, n, q);
  }

  /** The inner loop: tries the four neighbours of node c. */
  method Expand(matrix: array2<Cell>, visited: array2<int>, nodes: array<Node>, queue: array<int>, c: nat, rear0: int,
                ghost q0: seq<Found>, ghost m: Maze, ghost a: Pos, ghost b: Pos)
    returns (ghost q: seq<Found>, rear: int)
    requires Shows(matrix, m)
    requires Stored(q0, visited, nodes, queue, rear0)
    requires c < rear0 && Searching(m, a, b, q0, c) && q0[c].pos != b
    requires matrix as object != visited
    modifies visited, nodes, queue
    ensures rear0 <= rear == |q| && rear <= MAX_QUEUE_SIZE
    ensures Stored(q, visited, nodes, queue, rear)
    ensures Searching(m, a, b, q, c + 1)
  {
    q, rear := q0, rear0;
    ExpandingStarts(m, a, b, q, c);
    var i := 0;
    while i < 4
      invariant i <= 4 && rear0 <= rear == |q| && rear <= MAX_QUEUE_SIZE && Shows(matrix, m)
      invariant Stored(q, visited, nodes, queue, rear)
      invariant Expanding(m, a, b, q, c, i)
    {
      q, rear := TryNeighbour(matrix, visited, nodes, queue, c, rear, i, q, m, a, b);
      i := i + 1;
    }
    ExpandingEnds(m, a, b, q, c);
  }

  /** The switch of the inner loop. */
  method StepFrom(x: int, y: int, d: Dir) returns (newX: int, newY: int)
    ensures Pos(newX, newY) == Move(Pos(x, y), d)
  {
    newX, newY := x, y;
    match d {
      case Up => newX := newX - 1;
      case Down => newX := newX + 1;
      case Left => newY := newY - 1;
      case Right => newY := newY + 1;
      case Still =>
    }
  }

  /** Queues the neighbour of node c in one direction when it is open and not visited yet. */
  method TryNeighbour(matrix: array2<Cell>, visited: array2<int>, nodes: array<Node>, queue: array<int>, c: nat, rear0: int, i: nat,
                      ghost q0: seq<Found>, ghost m: Maze, ghost a: Pos, ghost b: Pos)
    returns (ghost q: seq<Found>, rear: int)
    requires Shows(matrix, m)
    requires Stored(q0, visited, nodes, queue, rear0)
    requires i < 4 && Expanding(m, a, b, q0, c, i)
    requires matrix as object != visited
    modifies visited, nodes, queue
    ensures rear0 <= rear == |q| && rear <= MAX_QUEUE_SIZE
    ensures Stored(q, visited, nodes, queue, rear)
    ensures Expanding(m, a, b, q, c, i + 1)
  {
    q, rear := q0, rear0;
    var node := Fetch(visited, nodes, queue, rear, c, q);
    var newDirection := DirAt(i);
    var newX, newY := StepFrom(node.x, node.y, newDirection);
    var isNew := IsNew(matrix, visited, newX, newY, q, m);
    if isNew {
      ExpandingAdds(m, a, b, q, c, i);
      if rear < MAX_QUEUE_SIZE {
        ghost var f := Neighbour(q[c], newDirection);
        Enqueue(visited, nodes, queue, rear, Node(newX, newY, if node.direction == Still then newDirection else node.direction), q, f);
        q, rear := q + [f], rear + 1;
      }
    } else {
      ExpandingSkips(m, a, b, q, c, i);
    }
  }

  /** The test before a cell is queued. */
  method IsNew(matrix: array2<Cell>, visited: array2<int>, x: int, y: int, ghost q: seq<Found>, ghost m: Maze) returns (r: bool)
    requires Shows(matrix, m)
    requires visited.Length0 == ROWS && visited.Length1 == COLUMNS && Visits(q, visited)
    ensures r <==> Open(m, Pos(x, y)) && forall i :: 0 <= i < |q| ==> q[i].pos != Pos(x, y)
  {
    r := 0 <= x < ROWS && 0 <= y < COLUMNS && matrix[x, y] != Wall && visited[x, y] == 0;
  }
}
