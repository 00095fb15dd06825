/** The grid search of `zgame/pathfinding/MAStar.cpp`: what its closed nodes prove about routes. */
module AStar {
  import opened OpenList

  const INVALID := -30000                 // PF_MAP_INVALID_NODE
  const NOCELL := Cell(INVALID, INVALID)
  const ROOTTWO := 1.414                  // PF_ROOT_TWO

  datatype State = SEARCHING | FOUND | NOPATH | EXCEED

  /** The grid: passable pixels, the caller's limit, and the goal. */
  datatype Grid = Grid(pixel: Cell -> bool, limit: Cell -> bool, start: Cell, goal: Cell) {
    predicate Allowed(c: Cell) {
      pixel(c) && limit(c)
    }

    /** A bitmap has no pixel at negative places. */
    ghost predicate OK() {
      && (forall c | pixel(c) :: c.x >= 0 && c.z >= 0)
      && start.x != INVALID && start.z != INVALID
    }

    function Manhattan(c: Cell): real {
      (if c.x > goal.x then c.x - goal.x else goal.x - c.x) as real
      + (if c.z > goal.z then c.z - goal.z else goal.z - c.z) as real
    }

    /** Cell b is one of the eight neighbours of a. */
    ghost predicate Beside(a: Cell, b: Cell) {
      a != b && -1 <= b.x - a.x <= 1 && -1 <= b.z - a.z <= 1
    }

    function Step(a: Cell, b: Cell): real {
      if a.x == b.x || a.z == b.z then 1.0 else ROOTTWO
    }

    /** The cells one can get to from the start, over allowed cells. */
    ghost predicate Route(r: seq<Cell>) {
      && r != [] && r[0] == start
      && forall i {:trigger r[i]} | 0 < i < |r| :: Beside(r[i - 1], r[i]) && Allowed(r[i])
    }

    ghost predicate Reachable(c: Cell) {
      exists r :: Route(r) && r[|r| - 1] == c
    }

    // ---------- what the search knows ----------

    /** A node of the search: where it came from, and that this was no detour over its predecessor. */
    ghost predicate NodeOK(K: map<Cell, Node>, c: Cell) {
      && c in K && K[c].cell == c && K[c].h == Manhattan(c) && K[c].g >= 0.0
      && if c == start then K[c].prv == NOCELL && K[c].g == 0.0
         else
           var p := K[c].prv;
           p in K && Beside(p, c) && Allowed(c) && K[p].g + Step(p, c) <= K[c].g
    }

    ghost predicate Known(K: map<Cell, Node>) {
      start in K && forall c {:trigger NodeOK(K, c)} | c in K :: NodeOK(K, c)
    }

    /** Every allowed neighbour of a closed cell is known, at no more than the cost over that cell. */
    ghost predicate Expanded(C: map<Cell, Node>, K: map<Cell, Node>) {
      forall c, d {:trigger Beside(c, d)} | c in C && Beside(c, d) && Allowed(d) ::
        d in K && K[d].g <= C[c].g + Step(c, d)
    }

    /** The start alone. */
    lemma Begins(n: Node)
      requires n == Node(start, NOCELL, Manhattan(start), 0.0)
      ensures Known(map[start := n])
    {
    }

    /** A cheaper way to a cell, or a first one, by the node just taken from the open list. */
    lemma Improves(K: map<Cell, Node>, n: Node)
      requires Known(K) && n.prv in K && Beside(n.prv, n.cell) && Allowed(n.cell)
      requires n.h == Manhattan(n.cell) && n.g == K[n.prv].g + Step(n.prv, n.cell)
      requires n.cell in K ==> K[n.cell].Cost() > n.Cost()
      ensures n.cell != start && Known(K[n.cell := n]) && (n.cell in K ==> K[n.cell].g > n.g)
    {
      var m := K[n.cell := n];
      assert NodeOK(K, n.prv);
      if n.cell in K { assert NodeOK(K, n.cell); }
      forall c | c in m
        ensures NodeOK(m, c)
      {
        if c != n.cell { assert NodeOK(K, c); }
      }
    }

    /** The last step of a route. */
    lemma RouteFront(r: seq<Cell>)
      requires Route(r) && |r| > 1
      ensures Route(r[..|r| - 1]) && Beside(r[|r| - 2], r[|r| - 1]) && Allowed(r[|r| - 1])
    {
      hide Beside, Allowed;
      assert Beside(r[|r| - 1 - 1], r[|r| - 1]);
      var s := r[..|r| - 1];
      forall i {:trigger s[i]} | 0 < i < |s|
        ensures Beside(s[i - 1], s[i]) && Allowed(s[i])
      {
        assert s[i] == r[i] && s[i - 1] == r[i - 1];
      }
    }

    /** With nothing left to expand every cell one can get to is closed. */
    lemma {:induction false} AllClosed(C: map<Cell, Node>, r: seq<Cell>)
      requires start in C && Expanded(C, C) && Route(r)
      ensures r[|r| - 1] in C
      decreases |r|
    {
      if |r| > 1 {
        RouteFront(r);
        hide Route, Beside, Allowed;
        AllClosed(C, r[..|r| - 1]);
      }
    }

    lemma NoPath(C: map<Cell, Node>)
      requires start in C && Expanded(C, C) && goal !in C
      ensures !Reachable(goal)
    {
      forall r | Route(r) ensures r[|r| - 1] in C { AllClosed(C, r); }
    }

    /** What is known can be reached, back over the predecessors. */
    lemma {:induction false} KnownReached(K: map<Cell, Node>, c: Cell) returns (r: seq<Cell>)
      requires Known(K) && c in K
      ensures Route(r) && r[|r| - 1] == c
      decreases K[c].g.Floor
    {
      assert NodeOK(K, c);
      if c == start {
        r := [start];
      } else {
        var p := K[c].prv;
        assert NodeOK(K, p);
        var front := KnownReached(K, p);
        r := front + [c];
        RouteMore(front, c);
      }
    }

    lemma RouteMore(r: seq<Cell>, c: Cell)
      requires Route(r) && Beside(r[|r| - 1], c) && Allowed(c)
      ensures Route(r + [c])
    {
      hide Beside, Allowed;
      var s := r + [c];
      forall i {:trigger s[i]} | 0 < i < |s|
        ensures Beside(s[i - 1], s[i]) && Allowed(s[i])
      {
        assert s[i - 1] == r[i - 1];
        if i < |r| { assert s[i] == r[i]; }
      }
    }

    // ---------- the estimate ----------

    /** The estimate is 0 at the goal alone, and a straight step changes it by 1, a diagonal one by 2 or not at all. */
    lemma ManhattanSteps(a: Cell, b: Cell)
      requires Beside(a, b)
      ensures (Manhattan(a) == 0.0 <==> a == goal) && Manhattan(a) >= 0.0
      ensures a.x == b.x || a.z == b.z ==> Manhattan(a) - Manhattan(b) == 1.0 || Manhattan(b) - Manhattan(a) == 1.0
      ensures a.x != b.x && a.z != b.z ==> Manhattan(a) - Manhattan(b) in {-2.0, 0.0, 2.0}
    {
    }

    /** It exceeds the way to the goal by no more than a diagonal step is cheaper than two straight ones. */
    lemma {:induction false} EstimateBound(p: seq<Cell>)
      requires Path(p)
      ensures 1.414 * Manhattan(p[0]) <= 2.0 * Length(p)
      decreases |p|
    {
      if |p| > 1 {
        PathRest(p);
        ManhattanSteps(p[0], p[1]);
        EstimateBound(p[1..]);
      }
    }

    lemma PathRest(p: seq<Cell>)
      requires Path(p) && |p| > 1
      ensures Path(p[1..]) && Beside(p[0], p[1]) && Allowed(p[1])
    {
      hide Beside, Allowed;
      assert Beside(p[1 - 1], p[1]);
      var s := p[1..];
      forall i {:trigger s[i]} | 0 < i < |s|
        ensures Beside(s[i - 1], s[i]) && Allowed(s[i])
      {
        assert s[i] == p[i + 1] && s[i - 1] == p[i + 1 - 1];
      }
    }

    /** If no open node is cheaper than the goal, then along every way from a known cell to the goal some open cell
        bounds the cost of the goal. */
    lemma {:induction false} GoalBound(C: map<Cell, Node>, K: map<Cell, Node>, p: seq<Cell>, sofar: real)
      requires Expanded(C, K) && goal in K && goal !in C && Path(p) && p[0] in K && K[p[0]].g <= sofar
      requires forall c | c in C :: c in K && K[c] == C[c]
      requires forall c | c in K && c !in C :: K[goal].g <= K[c].g + Manhattan(c)
      ensures 1.414 * K[goal].g <= 1.414 * sofar + 2.0 * Length(p)
      decreases |p|
    {
      if p[0] in C {
        PathRest(p);
        hide Beside, Allowed, Manhattan;
        GoalBound(C, K, p[1..], sofar + Step(p[0], p[1]));
      } else {
        EstimateBound(p);
      }
    }

    // ---------- paths ----------

    /** A chain of neighbours, allowed but for the first, that ends at the goal. */
    ghost predicate Path(p: seq<Cell>) {
      && p != [] && p[|p| - 1] == goal
      && forall i {:trigger p[i]} | 0 < i < |p| :: Beside(p[i - 1], p[i]) && Allowed(p[i])
    }

    ghost function Length(p: seq<Cell>): real {
      if |p| <= 1 then 0.0 else Step(p[0], p[1]) + Length(p[1..])
    }

    /** A path that starts at the start is a route. */
    lemma PathIsRoute(p: seq<Cell>)
      requires Path(p) && p[0] == start
      ensures Reachable(goal)
    {
      assert Route(p);
    }
  }

  /** The eight neighbours, straight ones first. */
  function Neighbour(c: Cell, i: int): Cell
    requires 0 <= i < 8
  {
    if i == 0 then Cell(c.x - 1, c.z) else if i == 1 then Cell(c.x + 1, c.z)
    else if i == 2 then Cell(c.x, c.z + 1) else if i == 3 then Cell(c.x, c.z - 1)
    else if i == 4 then Cell(c.x + 1, c.z + 1) else if i == 5 then Cell(c.x + 1, c.z - 1)
    else if i == 6 then Cell(c.x - 1, c.z + 1) else Cell(c.x - 1, c.z - 1)
  }

  /** The first n neighbours of the current cell that are allowed are known, at no more than the cost over it. */
  ghost predicate Looked(grid: Grid, cur: Node, n: int, K: map<Cell, Node>) {
    0 <= n <= 8 && forall i {:trigger Neighbour(cur.cell, i)} | 0 <= i < n && grid.Allowed(Neighbour(cur.cell, i)) ::
        Reached(grid, cur, Neighbour(cur.cell, i), K)
  }

  ghost predicate Reached(grid: Grid, cur: Node, c: Cell, K: map<Cell, Node>) {
    c in K && K[c].g <= cur.g + grid.Step(cur.cell, c)
  }

  lemma AllLooked(grid: Grid, C: map<Cell, Node>, K: map<Cell, Node>, cur: Node)
    requires grid.Expanded(C, K) && Looked(grid, cur, 8, K)
    ensures grid.Expanded(C[cur.cell := cur], K)
  {
    forall d | grid.Beside(cur.cell, d) && grid.Allowed(d)
      ensures Reached(grid, cur, d, K)
    {
      var i := NeighbourIndex(cur.cell, d, grid);
      assert Neighbour(cur.cell, i) == d;
    }
  }

  lemma NotItself(grid: Grid, cur: Node, i: int)
    requires 0 <= i < 8
    ensures Neighbour(cur.cell, i) != cur.cell && grid.Beside(cur.cell, Neighbour(cur.cell, i))
  {
  }

  lemma NeighbourIndex(c: Cell, d: Cell, grid: Grid) returns (i: int)
    requires grid.Beside(c, d)
    ensures 0 <= i < 8 && Neighbour(c, i) == d
  {
    i := if d.x < c.x then (if d.z == c.z then 0 else if d.z > c.z then 6 else 7)
         else if d.x > c.x then (if d.z == c.z then 1 else if d.z > c.z then 4 else 5)
         else if d.z > c.z then 2 else 3;
  }

  /** All nodes of the search: closed, open, and the current one. */
  ghost function All(C: map<Cell, Node>, O: map<Cell, Node>, cur: Node): map<Cell, Node> {
    C + O + map[cur.cell := cur]
  }

  /** The three lists are disjoint and their nodes are known. */
  ghost predicate Sound(grid: Grid, C: map<Cell, Node>, O: map<Cell, Node>, cur: Node) {
    && cur.cell !in O && cur.cell !in C && O.Keys !! C.Keys
    && grid.Known(All(C, O, cur)) && grid.Expanded(C, All(C, O, cur))
  }

  /** Node n goes to the open list; if it was closed it is no longer. */
  lemma Moved(grid: Grid, C: map<Cell, Node>, O: map<Cell, Node>, cur: Node, n: Node, i: int)
    requires Sound(grid, C, O, cur) && Looked(grid, cur, i, All(C, O, cur)) && i < 8
             && n.cell == Neighbour(cur.cell, i) && n.g == cur.g + grid.Step(cur.cell, n.cell)
    requires grid.Known(All(C, O, cur)[n.cell := n])
    requires n.cell in All(C, O, cur) ==> All(C, O, cur)[n.cell].g > n.g
    ensures Sound(grid, C - {n.cell}, O[n.cell := n], cur)
    ensures Looked(grid, cur, i + 1, All(C - {n.cell}, O[n.cell := n], cur))
  {
    var K := All(C, O, cur)[n.cell := n];
    assert n.cell != cur.cell;
    assert All(C - {n.cell}, O[n.cell := n], cur) == K;
    forall j | 0 <= j < i + 1 && grid.Allowed(Neighbour(cur.cell, j))
      ensures Reached(grid, cur, Neighbour(cur.cell, j), K)
    {
      if j < i { assert Reached(grid, cur, Neighbour(cur.cell, j), All(C, O, cur)); }
    }
    ExpandedStill(grid, C, All(C, O, cur), n);
  }

  lemma ExpandedStill(grid: Grid, C: map<Cell, Node>, K: map<Cell, Node>, n: Node)
    requires grid.Expanded(C, K) && (n.cell in K ==> K[n.cell].g > n.g)
    ensures grid.Expanded(C - {n.cell}, K[n.cell := n])
  {
    hide Grid.Beside, Grid.Allowed, Grid.Step;
    forall c, d | c in C - {n.cell} && grid.Beside(c, d) && grid.Allowed(d)
      ensures d in K && K[n.cell := n][d].g <= C[c].g + grid.Step(c, d)
    {
      assert c in C;
    }
  }

  /** A neighbour that is known at no more than the cost over the current cell is left as it is. */
  lemma NotCheaper(grid: Grid, K: map<Cell, Node>, cur: Node, i: int)
    requires Looked(grid, cur, i, K) && i < 8
    requires grid.Allowed(Neighbour(cur.cell, i)) ==> Reached(grid, cur, Neighbour(cur.cell, i), K)
    ensures Looked(grid, cur, i + 1, K)
  {
  }

  /** Of one cell all nodes have the same estimate. */
  lemma SameEstimate(grid: Grid, K: map<Cell, Node>, n: Node)
    requires grid.Known(K) && n.cell in K && n.h == grid.Manhattan(n.cell)
    ensures K[n.cell].Cost() > n.Cost() <==> K[n.cell].g > n.g
  {
    assert grid.NodeOK(K, n.cell);
    hide Grid.Manhattan;
  }

  /** What the current node makes of its neighbour c. */
  ghost predicate Relaxed(grid: Grid, C: map<Cell, Node>, O: map<Cell, Node>, cur: Node, c: Cell,
                          C': map<Cell, Node>, O': map<Cell, Node>) {
    var K, g := All(C, O, cur), cur.g + (if c.x == cur.cell.x || c.z == cur.cell.z then 1.0 else 1.414);
    if grid.pixel(c) && grid.limit(c) && (c in K ==> K[c].g > g) then
      C' == C - {c} && O' == O[c := Node(c, cur.cell, grid.Manhattan(c), g)]
    else C' == C && O' == O
  }

  /** It is better, and goes to the open list. */
  lemma Better(grid: Grid, C: map<Cell, Node>, O: map<Cell, Node>, cur: Node, i: int, next: Node)
    requires Sound(grid, C, O, cur) && Looked(grid, cur, i, All(C, O, cur)) && i < 8
             && next.cell == Neighbour(cur.cell, i) && grid.pixel(next.cell) && grid.limit(next.cell)
    requires next == Node(next.cell, cur.cell, grid.Manhattan(next.cell), cur.g + grid.Step(cur.cell, next.cell))
    requires next.cell in All(C, O, cur) ==> All(C, O, cur)[next.cell].Cost() > next.Cost()
    ensures var C', O' := C - {next.cell}, O[next.cell := next];
            && Sound(grid, C', O', cur) && Looked(grid, cur, i + 1, All(C', O', cur))
            && Relaxed(grid, C, O, cur, next.cell, C', O') && next.cell != grid.start
  {
    Lists(grid, C, O, cur, next.cell);
    grid.Improves(All(C, O, cur), next);
    Moved(grid, C, O, cur, next, i);
    hide Sound, Looked, All;
  }

  /** It is not, or may not be entered, and nothing changes. */
  lemma NoBetter(grid: Grid, C: map<Cell, Node>, O: map<Cell, Node>, cur: Node, i: int, next: Node)
    requires Sound(grid, C, O, cur) && Looked(grid, cur, i, All(C, O, cur)) && i < 8
             && next.cell == Neighbour(cur.cell, i)
    requires next == Node(next.cell, cur.cell, grid.Manhattan(next.cell), cur.g + grid.Step(cur.cell, next.cell))
    requires grid.pixel(next.cell) && grid.limit(next.cell) ==>
             next.cell in All(C, O, cur) && All(C, O, cur)[next.cell].Cost() <= next.Cost()
    ensures Looked(grid, cur, i + 1, All(C, O, cur)) && Relaxed(grid, C, O, cur, next.cell, C, O)
  {
    var K := All(C, O, cur);
    if next.cell in K { SameEstimate(grid, K, next); }
    NotCheaper(grid, K, cur, i);
    hide Sound, Looked, All, Grid.Manhattan;
  }

  class CMAStar {
    const openHeap: bool
    const maxExpand := 3000
    var nodesExpanded: int
    var nodesTouched: int
    var state: State

    constructor (openHeap: bool)
      ensures this.openHeap == openHeap
    {
      this.openHeap, nodesExpanded, nodesTouched, state := openHeap, 0, 0, SEARCHING;
    }

    /** One of the eight neighbours of the current node. */
    method Touch(grid: Grid, cur: Node, i: int, open: Open, closed: map<Cell, Node>)
      returns (closed': map<Cell, Node>)
      requires 0 <= i < 8 && open.Valid() && Sound(grid, closed, open.Nodes(), cur)
               && Looked(grid, cur, i, All(closed, open.Nodes(), cur))
      modifies `nodesTouched, open.heap, open.vect
      ensures open.Valid() && Sound(grid, closed', open.Nodes(), cur)
              && Looked(grid, cur, i + 1, All(closed', open.Nodes(), cur))
      ensures nodesTouched == old(nodesTouched) + 1
      ensures Relaxed(grid, closed, old(open.Nodes()), cur, Neighbour(cur.cell, i), closed', open.Nodes())
      ensures (grid.goal !in closed ==> grid.goal !in closed') && (grid.start in closed ==> grid.start in closed')
    {
      hide Sound, Looked, Relaxed, All, Grid.Manhattan, Grid.Step, Neighbour;
      nodesTouched := nodesTouched + 1;
      closed' := closed;
      var c := Neighbour(cur.cell, i);
      ghost var O := open.Nodes();
      var next := Node(c, cur.cell, grid.Manhattan(c), cur.g + grid.Step(cur.cell, c));
      if !grid.pixel(c) {
        NoBetter(grid, closed, O, cur, i, next);
        return;
      }
      if !grid.limit(c) {
        NoBetter(grid, closed, O, cur, i, next);
        return;
      }
      NotItself(grid, cur, i);
      Lists(grid, closed, O, cur, c);
      var at := open.Find(c);
      if at != open.Size() {
        if open.Get(at).Cost() > next.Cost() {
          Better(grid, closed, O, cur, i, next);
          open.Improve(at, next);
        } else {
          NoBetter(grid, closed, O, cur, i, next);
        }
      } else if c in closed {
        if closed[c].g + closed[c].h > next.g + next.h {
          Better(grid, closed, O, cur, i, next);
          closed' := closed - {c};
          open.Push(next);
        } else {
          NoBetter(grid, closed, O, cur, i, next);
        }
      } else {
        Better(grid, closed, O, cur, i, next);
        open.Push(next);
      }
    }

    /** The loop over the eight neighbours. */
    method Expand(grid: Grid, cur: Node, open: Open, closed: map<Cell, Node>) returns (closed': map<Cell, Node>)
      requires open.Valid() && Sound(grid, closed, open.Nodes(), cur) && cur.cell != grid.goal && grid.goal !in closed
      modifies `nodesTouched, open.heap, open.vect
      ensures open.Valid() && Rests(grid, closed', open.Nodes()) && grid.goal !in closed'
      ensures cur.cell in closed' && (grid.start in closed ==> grid.start in closed')
      ensures nodesTouched == old(nodesTouched) + 8
    {
      hide Sound;
      closed' := closed;
      var i := 0;
      while i < 8
        invariant 0 <= i <= 8 && open.Valid() && Sound(grid, closed', open.Nodes(), cur)
                  && Looked(grid, cur, i, All(closed', open.Nodes(), cur))
        invariant nodesTouched == old(nodesTouched) + i
        invariant grid.goal !in closed' && (grid.start in closed ==> grid.start in closed')
      {
        closed' := Touch(grid, cur, i, open, closed');
        i := i + 1;
      }
      CurrentClosed(grid, closed', open.Nodes(), cur);
      closed' := closed'[cur.cell := cur];
    }

    /** CMAStar::Search().  `left` are the nodes that are open at the end, `taken` those taken from the open list. */
    method Search(grid: Grid)
      returns (path: seq<Cell>, cost: real, ghost left: map<Cell, Node>, ghost taken: seq<Node>)
      requires grid.OK()
      modifies this
      ensures state == FOUND ==>
              grid.Path(path) && cost == grid.Length(path) && (path[0] == grid.start <==> path[0] !in left)
      ensures state == FOUND ==>
              forall r | grid.Route(r) && r[|r| - 1] == grid.goal :: 1.414 * cost <= 2.0 * grid.Length(r)
      ensures state == FOUND ==> grid.Reachable(grid.goal)
      ensures state == NOPATH ==> !grid.Reachable(grid.goal) && left == map[]
      ensures state == EXCEED ==> |taken| == 3000 && left != map[]
      ensures state in {FOUND, NOPATH, EXCEED} && |taken| <= 3000
      ensures state == FOUND <==> grid.start == grid.goal || exists n :: n in taken && n.cell == grid.goal
      ensures state != FOUND ==> path == [] && cost == -1.0
      ensures nodesExpanded == |taken| + (if state == EXCEED then 1 else 0)
      ensures nodesTouched == 8 * (if state == FOUND && taken != [] then |taken| - 1 else |taken|)
    {
      state, nodesExpanded, nodesTouched, path, cost, left := SEARCHING, 0, 0, [], -1.0, map[];
      taken := [];
      if grid.goal == grid.start {
        state, path, cost := FOUND, [grid.goal], 0.0;
        grid.PathIsRoute([grid.goal]);
        NoDetour(grid);
        return;
      }
      var open := new Open(openHeap);
      var closed: map<Cell, Node> := map[];
      var cur := Node(grid.start, NOCELL, grid.Manhattan(grid.start), 0.0);
      grid.Begins(cur);
      open.Push(cur);
      hide Rests, Sound;
      Started(grid, open.Nodes(), cur);
      while state == SEARCHING && open.Size() != 0
        invariant fresh(open.heap) && fresh(open.vect) && open.Valid()
        invariant state == SEARCHING && Rests(grid, closed, open.Nodes()) && grid.goal !in closed
        invariant grid.start in closed || (open.Nodes() == map[cur.cell := cur] && cur.cell == grid.start)
        invariant nodesExpanded == |taken| <= 3000 && nodesTouched == 8 * |taken|
        invariant forall n | n in taken :: n.cell != grid.goal
        decreases maxExpand - nodesExpanded
      {
        nodesExpanded := nodesExpanded + 1;
        if maxExpand > 0 && nodesExpanded > maxExpand {
          state, left := EXCEED, open.Nodes();
          open.EmptyIs();
          return;
        }
        open.EmptyIs();
        ghost var O := open.Nodes();
        cur := open.PopMinCost(cur);
        taken := taken + [cur];
        Taken(grid, closed, O, cur);
        if cur.cell == grid.goal {
          state := FOUND;
          NoWorse(grid, closed, O, cur);
          GoalClosed(grid, closed, open.Nodes(), cur);
          closed := closed[cur.cell := cur];
          left := open.Nodes();
          path, cost := GeneratePath(grid, closed, cur, left);
          return;
        }
        closed := Expand(grid, cur, open, closed);
      }
      open.EmptyIs();
      NothingOpen(grid, closed);
      state := NOPATH;
    }

    /** _GeneratePath(): from the goal back over the closed nodes, until there is no predecessor or it is not closed. */
    method GeneratePath(grid: Grid, closed: map<Cell, Node>, dest: Node, ghost left: map<Cell, Node>)
      returns (path: seq<Cell>, cost: real)
      requires grid.OK() && closed.Keys !! left.Keys && grid.Known(closed + left) && dest.cell == grid.goal
               && dest.cell in closed && closed[dest.cell] == dest
      requires grid.start in closed
      ensures grid.Path(path) && cost == grid.Length(path) && (path[0] == grid.start <==> path[0] !in left)
      ensures cost <= dest.g
    {
      ghost var K := closed + left;
      CellsAreReal(grid, K, dest.cell);
      var tmpPath: seq<Cell> := [];
      var x, last := dest.cell, dest.cell;
      cost := 0.0;
      while x.x != INVALID && x.z != INVALID
        invariant tmpPath == [] ==> x == last == dest.cell && cost == 0.0
        invariant tmpPath != [] ==>
                  last == tmpPath[|tmpPath| - 1] && Backwards(grid, tmpPath) && cost == BackLength(grid, tmpPath)
        invariant x == NOCELL || (x in K && (tmpPath != [] ==> grid.Beside(x, last) && grid.Allowed(last)))
        invariant cost >= 0.0 && (x == NOCELL ==> cost <= dest.g)
        invariant x != NOCELL ==> cost + (if tmpPath == [] then 0.0 else grid.Step(x, last)) + K[x].g <= dest.g
        invariant x == NOCELL ==> tmpPath != [] && (last == grid.start <==> last !in left)
        decreases Height(K, x)
      {
        var pos := x;
        var dx, dz := last.x - pos.x, last.z - pos.z;
        var weight :=
          if dx == 0 && dz == 0 then 0.0
          else if (dx == -1 || dx == 1) && (dz == -1 || dz == 1) then ROOTTWO
          else 1.0;
        cost := cost + weight;
        OneBack(grid, tmpPath, pos);
        tmpPath := tmpPath + [pos];
        last := pos;
        Predecessor(grid, closed, left, pos);
        CellsAreReal(grid, K, pos);
        x := if pos in closed then closed[pos].prv else NOCELL;
      }
      if x != NOCELL { CellsAreReal(grid, K, x); }
      path := [];
      var i := |tmpPath| - 1;
      while i >= 0
        invariant -1 <= i < |tmpPath| && |path| == |tmpPath| - 1 - i
        invariant forall k {:trigger path[k]} | 0 <= k < |path| :: path[k] == tmpPath[|tmpPath| - 1 - k]
      {
        path := path + [tmpPath[i]];
        i := i - 1;
      }
      Turned(grid, tmpPath, path);
    }
  }

  /** A path from its end to its beginning. */
  ghost predicate Backwards(grid: Grid, p: seq<Cell>) {
    && p != [] && p[0] == grid.goal
    && forall i {:trigger Linked(grid, p, i)} | 0 < i < |p| :: Linked(grid, p, i)
  }

  ghost predicate Linked(grid: Grid, p: seq<Cell>, i: int) {
    0 < i < |p| && grid.Beside(p[i], p[i - 1]) && grid.Allowed(p[i - 1])
  }

  /** How far a cell is from the start, in whole steps. */
  ghost function Height(K: map<Cell, Node>, c: Cell): nat {
    if c in K && c != NOCELL && K[c].g >= 0.0 then K[c].g.Floor + 1 else 0
  }

  ghost function BackLength(grid: Grid, p: seq<Cell>): real {
    if |p| <= 1 then 0.0 else BackLength(grid, p[..|p| - 1]) + grid.Step(p[|p| - 1], p[|p| - 2])
  }

  lemma OneBack(grid: Grid, p: seq<Cell>, c: Cell)
    requires if p == [] then c == grid.goal
             else Backwards(grid, p) && grid.Beside(c, p[|p| - 1]) && grid.Allowed(p[|p| - 1])
    ensures Backwards(grid, p + [c])
    ensures BackLength(grid, p + [c]) == if p == [] then 0.0 else BackLength(grid, p) + grid.Step(c, p[|p| - 1])
  {
    BackLengthOf(grid, p, c);
    hide BackLength, Grid.Beside, Grid.Allowed, Grid.Step;
    var n := p + [c];
    forall i | 0 < i < |n|
      ensures Linked(grid, n, i)
    {
      assert n[i - 1] == p[i - 1];
      if i < |p| {
        assert Linked(grid, p, i);
        assert n[i] == p[i];
      }
    }
  }

  lemma BackLengthOf(grid: Grid, p: seq<Cell>, c: Cell)
    ensures BackLength(grid, p + [c]) == if p == [] then 0.0 else BackLength(grid, p) + grid.Step(c, p[|p| - 1])
  {
    hide Grid.Step;
    assert (p + [c])[..|p|] == p;
  }

  lemma CellsAreReal(grid: Grid, K: map<Cell, Node>, c: Cell)
    requires grid.OK() && grid.Known(K) && c in K
    ensures c.x != INVALID && c.z != INVALID && K[c].g >= 0.0
  {
    assert grid.NodeOK(K, c);
  }

  /** The predecessor of a cell, as far as the closed nodes tell: one step nearer to the start, or none. */
  lemma Predecessor(grid: Grid, closed: map<Cell, Node>, left: map<Cell, Node>, c: Cell)
    requires grid.OK() && closed.Keys !! left.Keys && grid.Known(closed + left) && c in closed + left
             && grid.start in closed
    ensures var K := closed + left; var p := if c in closed then closed[c].prv else NOCELL;
            if p == NOCELL then c == grid.start <==> c !in left
            else
              p in K && grid.Beside(p, c) && grid.Allowed(c) && Height(K, p) < Height(K, c)
              && p.x != INVALID && p.z != INVALID && K[p].g + grid.Step(p, c) <= K[c].g
  {
    var K := closed + left;
    assert grid.NodeOK(K, c);
    if c in closed && c != grid.start {
      CellsAreReal(grid, K, closed[c].prv);
    }
  }

  lemma {:induction false} Turned(grid: Grid, p: seq<Cell>, q: seq<Cell>)
    requires Backwards(grid, p) && |q| == |p| && forall k {:trigger q[k]} | 0 <= k < |q| :: q[k] == p[|p| - 1 - k]
    ensures grid.Path(q) && grid.Length(q) == BackLength(grid, p)
    decreases |p|
  {
    forall i {:trigger q[i]} | 0 < i < |q|
      ensures grid.Beside(q[i - 1], q[i]) && grid.Allowed(q[i])
    {
      assert Linked(grid, p, |p| - i);
      assert q[i] == p[|p| - 1 - i] && q[i - 1] == p[|p| - i];
    }
    if |p| > 1 {
      var s := p[..|p| - 1];
      forall i | 0 < i < |s| ensures Linked(grid, s, i) { assert Linked(grid, p, i); }
      assert q[0] == p[|p| - 1] && q[1] == p[|p| - 2];
      assert forall k {:trigger q[1..][k]} | 0 <= k < |q[1..]| :: q[1..][k] == q[k + 1];
      Turned(grid, p[..|p| - 1], q[1..]);
    }
  }

  /** Between two turns of the loop: closed and open nodes are disjoint and known, closed ones are expanded. */
  ghost predicate Rests(grid: Grid, C: map<Cell, Node>, O: map<Cell, Node>) {
    C.Keys !! O.Keys && grid.Known(C + O) && grid.Expanded(C, C + O)
  }

  /** The current node, all neighbours looked at, is closed. */
  lemma CurrentClosed(grid: Grid, C: map<Cell, Node>, O: map<Cell, Node>, cur: Node)
    requires Sound(grid, C, O, cur) && Looked(grid, cur, 8, All(C, O, cur))
    ensures Rests(grid, C[cur.cell := cur], O)
  {
    AllLooked(grid, C, All(C, O, cur), cur);
    assert C[cur.cell := cur] + O == All(C, O, cur);
  }

  lemma Started(grid: Grid, O: map<Cell, Node>, cur: Node)
    requires O == map[cur.cell := cur] && grid.Known(O)
    ensures Rests(grid, map[], O)
  {
    assert map[] + O == O;
  }

  lemma NothingOpen(grid: Grid, C: map<Cell, Node>)
    requires Rests(grid, C, map[]) && grid.goal !in C
    ensures !grid.Reachable(grid.goal)
  {
    assert C + map[] == C;
    grid.NoPath(C);
  }

  /** The goal is taken: it is closed, and the rest is as it was. */
  lemma GoalClosed(grid: Grid, C: map<Cell, Node>, O: map<Cell, Node>, cur: Node)
    requires Sound(grid, C, O, cur)
    ensures var D := C[cur.cell := cur]; D.Keys !! O.Keys && grid.Known(D + O)
  {
    assert C[cur.cell := cur] + O == All(C, O, cur);
  }

  /** The cheapest open node becomes the current one. */
  lemma Taken(grid: Grid, C: map<Cell, Node>, O: map<Cell, Node>, cur: Node)
    requires Rests(grid, C, O) && cur.cell in O && O[cur.cell] == cur
    ensures Sound(grid, C, O - {cur.cell}, cur)
  {
    assert All(C, O - {cur.cell}, cur) == C + O;
  }

  /** The goal is the cheapest open node: no route to it is much shorter. */
  lemma NoWorse(grid: Grid, C: map<Cell, Node>, O: map<Cell, Node>, cur: Node)
    requires Rests(grid, C, O) && grid.goal !in C && cur.cell == grid.goal && grid.goal in O && O[grid.goal] == cur
    requires forall c | c in O :: cur.Cost() <= O[c].Cost()
    ensures grid.Reachable(grid.goal)
    ensures forall r | grid.Route(r) && r[|r| - 1] == grid.goal :: 1.414 * cur.g <= 2.0 * grid.Length(r)
  {
    var K := C + O;
    var way := grid.KnownReached(K, grid.goal);
    assert grid.NodeOK(K, grid.start) && grid.NodeOK(K, grid.goal);
    forall c | c in K && c !in C
      ensures cur.g <= K[c].g + grid.Manhattan(c)
    {
      assert grid.NodeOK(K, c);
    }
    forall r | grid.Route(r) && r[|r| - 1] == grid.goal
      ensures 1.414 * cur.g <= 2.0 * grid.Length(r)
    {
      assert grid.Path(r);
      grid.GoalBound(C, K, r, 0.0);
    }
  }

  lemma NoDetour(grid: Grid)
    ensures forall r :: 0.0 <= grid.Length(r)
  {
    forall r ensures 0.0 <= grid.Length(r) { LengthPositive(grid, r); }
  }

  lemma {:induction false} LengthPositive(grid: Grid, r: seq<Cell>)
    ensures 0.0 <= grid.Length(r)
  {
    if |r| > 1 { LengthPositive(grid, r[1..]); }
  }

  /** Where a neighbour of the current cell can be. */
  lemma Lists(grid: Grid, C: map<Cell, Node>, O: map<Cell, Node>, cur: Node, c: Cell)
    requires Sound(grid, C, O, cur) && c != cur.cell
    ensures var K := All(C, O, cur);
            && grid.Known(K) && cur.cell in K && K[cur.cell] == cur
            && (c in K <==> c in C || c in O) && (c in C ==> K[c] == C[c] && c !in O)
            && (c in O ==> K[c] == O[c] && C - {c} == C)
            && (c !in C ==> C - {c} == C)
  {
  }
}
