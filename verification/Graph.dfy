/** The graph of `zgame/pathfinding/Graph.cpp`: nodes and edges carry their own index, and removal moves the last one
    into the gap. Nodes and edges are known by their addresses, 0 being NULL. */
module Graphs {

  type Node = int
  type Edge = int

  // ---------- what the numbers and lists mean ----------

  /** The element at place i has number i. */
  ghost predicate Numbered(list: seq<int>, num: map<int, int>) {
    forall i {:trigger list[i]} | 0 <= i < |list| :: list[i] != 0 && list[i] in num && num[list[i]] == i
  }

  /** Both ends of every edge are numbers of nodes. */
  ghost predicate EndsIn(edges: seq<Edge>, src: map<Edge, int>, dst: map<Edge, int>, n: nat) {
    forall e {:trigger src[e]} {:trigger dst[e]} {:trigger e in edges} | e in edges ::
        e in src && e in dst && 0 <= src[e] < n && 0 <= dst[e] < n
  }

  /** How many ends of edge e are at node number i. */
  function Touches(src: map<Edge, int>, dst: map<Edge, int>, e: Edge, i: int): nat {
    (if e in src && src[e] == i then 1 else 0) + (if e in dst && dst[e] == i then 1 else 0)
  }

  /** The list holds every edge as often as it touches node number i. */
  ghost predicate Exact(list: seq<Edge>, edges: seq<Edge>, src: map<Edge, int>, dst: map<Edge, int>, i: int) {
    forall e :: multiset(list)[e] == if e in edges then Touches(src, dst, e, i) else 0
  }

  ghost predicate Adjacent(nodes: seq<Node>, adj: map<Node, seq<Edge>>, edges: seq<Edge>, src: map<Edge, int>,
      dst: map<Edge, int>)
  {
    forall i {:trigger nodes[i]} | 0 <= i < |nodes| :: nodes[i] in adj && Exact(adj[nodes[i]], edges, src, dst, i)
  }

  lemma NumbersDiffer(list: seq<int>, num: map<int, int>, i: int, j: int)
    requires Numbered(list, num) && 0 <= i < |list| && 0 <= j < |list| && list[i] == list[j]
    ensures i == j
  {
  }

  // ---------- renumbering ----------

  function Renamed(i: int, old_: int, x: int): int { if i == old_ then x else i }

  /** The ends of an edge after it was met c times: first the target is renamed, then the source. */
  function SrcAfter(s: int, d: int, old_: int, x: int, c: nat): int {
    if s == old_ && c >= (if d == old_ then 2 else 1) then x else s
  }

  function DstAfter(d: int, old_: int, x: int, c: nat): int {
    if d == old_ && c >= 1 then x else d
  }

  lemma Step(list: seq<Edge>, i: int, edges: seq<Edge>, src: map<Edge, int>, dst: map<Edge, int>, old_: int)
    requires 0 <= i < |list| && Exact(list, edges, src, dst, old_)
    ensures list[i] in edges && multiset(list[..i + 1]) == multiset(list[..i]) + multiset{list[i]}
    ensures multiset(list[..i])[list[i]] < Touches(src, dst, list[i], old_)
  {
    assert list[..i + 1] == list[..i] + [list[i]];
    assert list == list[..i + 1] + list[i + 1..];
    var e := list[i];
    assert multiset(list)[e] > 0;
    assert multiset(list)[e] == if e in edges then Touches(src, dst, e, old_) else 0;
  }

  /** The edges without an end at n. */
  ghost predicate Left(nodes: seq<Node>, edges: seq<Edge>, src: map<Edge, int>, dst: map<Edge, int>, n: Node,
      left: seq<Edge>)
  {
    && EndsIn(edges, src, dst, |nodes|)
    && forall e {:trigger e in edges} {:trigger e in left} ::
       e in left <==> e in edges && nodes[src[e]] != n && nodes[dst[e]] != n
  }

  /** Every edge joins the same nodes as before. */
  ghost predicate SameEnds(nodes: seq<Node>, src: map<Edge, int>, dst: map<Edge, int>, edges: seq<Edge>,
      now: seq<Node>, ns: map<Edge, int>, nd: map<Edge, int>)
  {
    && EndsIn(edges, src, dst, |nodes|) && EndsIn(edges, ns, nd, |now|)
    && forall e {:trigger e in edges} | e in edges :: now[ns[e]] == nodes[src[e]] && now[nd[e]] == nodes[dst[e]]
  }

  lemma EdgesLeft(nodes: seq<Node>, num: map<int, int>, edges: seq<Edge>, src: map<Edge, int>, dst: map<Edge, int>,
      n: Node, left: seq<Edge>)
    requires Numbered(nodes, num) && n in nodes && n in num && EndsIn(edges, src, dst, |nodes|)
    requires forall e :: e in left <==> e in edges && Touches(src, dst, e, num[n]) == 0
    ensures Left(nodes, edges, src, dst, n, left)
  {
    var i := PlaceOf(nodes, num, n);
  }

  // ---------- removal by the last element ----------

  function Filled(list: seq<int>, i: int): seq<int>
    requires 0 <= i < |list|
  {
    list[i := list[|list| - 1]][..|list| - 1]
  }

  lemma FilledLoses(list: seq<int>, i: int)
    requires 0 <= i < |list|
    ensures multiset(Filled(list, i)) == multiset(list) - multiset{list[i]}
  {
    var n := |list| - 1;
    var f := Filled(list, i);
    assert list == list[..n] + [list[n]];
    if i < n {
      assert list[..n] == list[..i] + [list[i]] + list[i + 1..n];
      assert f == list[..i] + [list[n]] + list[i + 1..n];
    } else {
      assert f == list[..n];
    }
  }

  /** The elements that are left, and their numbers. */
  /** Exactly one element is missing. */
  ghost predicate Without(left: seq<int>, list: seq<int>, e: int) {
    forall x :: x in left <==> x in list && x != e
  }

  lemma FilledNumbered(list: seq<int>, num: map<int, int>, i: int)
    requires Numbered(list, num) && 0 <= i < |list|
    ensures var f := Filled(list, i);
            Numbered(f, num[list[|list| - 1] := i]) && Without(f, list, list[i])
  {
    var n := |list| - 1;
    var f := Filled(list, i);
    forall k | 0 <= k < |f|
      ensures f[k] in list && f[k] != list[i]
    {
      if k == i { assert f[k] == list[n]; } else { assert f[k] == list[k]; }
    }
    forall x | x in list && x != list[i]
      ensures x in f
    {
      var k :| 0 <= k < |list| && list[k] == x;
      if k == n { assert f[i] == x; } else { assert f[k] == x; }
    }
  }

  // ---------- what the operations do ----------

  lemma NodeAdded(nodes: seq<Node>, num: map<int, int>, adj: map<Node, seq<Edge>>, edges: seq<Edge>,
      src: map<Edge, int>, dst: map<Edge, int>, n: Node)
    requires Numbered(nodes, num) && Adjacent(nodes, adj, edges, src, dst) && EndsIn(edges, src, dst, |nodes|)
             && n !in nodes && n != 0
    ensures Numbered(nodes + [n], num[n := |nodes|]) && Adjacent(nodes + [n], adj[n := []], edges, src, dst)
            && EndsIn(edges, src, dst, |nodes| + 1)
  {
    var now, na := nodes + [n], adj[n := []];
    forall i | 0 <= i < |now|
      ensures now[i] in na && Exact(na[now[i]], edges, src, dst, i)
    {
      if i < |nodes| { assert now[i] == nodes[i]; }
    }
  }

  /** A list that gets the new edge once for every end at i. */
  lemma EdgeListed(list: seq<Edge>, edges: seq<Edge>, src: map<Edge, int>, dst: map<Edge, int>, i: int, e: Edge,
      s: int, d: int, now: seq<Edge>)
    requires Exact(list, edges, src, dst, i) && e !in edges
    requires multiset(now) == multiset(list) + multiset{e}[e := Touches(src[e := s], dst[e := d], e, i)]
    ensures Exact(now, edges + [e], src[e := s], dst[e := d], i)
  {
    forall x
      ensures multiset(now)[x] == if x in edges + [e] then Touches(src[e := s], dst[e := d], x, i) else 0
    {
      assert multiset(list)[x] == if x in edges then Touches(src, dst, x, i) else 0;
    }
  }

  /** CGGraph::AddEdge on the adjacency lists. */
  lemma EdgeAdded(nodes: seq<Node>, num: map<int, int>, adj: map<Node, seq<Edge>>, edges: seq<Edge>,
      src: map<Edge, int>, dst: map<Edge, int>, e: Edge, s: int, d: int)
    requires Numbered(nodes, num) && Adjacent(nodes, adj, edges, src, dst) && e !in edges && 0 <= s < |nodes|
             && 0 <= d < |nodes|
    ensures nodes[s] in adj && nodes[d] in adj
    ensures var a := adj[nodes[s] := adj[nodes[s]] + [e]];
            Adjacent(nodes, a[nodes[d] := a[nodes[d]] + [e]], edges + [e], src[e := s], dst[e := d])
  {
    var a := adj[nodes[s] := adj[nodes[s]] + [e]];
    var b := a[nodes[d] := a[nodes[d]] + [e]];
    forall i | 0 <= i < |nodes|
      ensures nodes[i] in b && Exact(b[nodes[i]], edges + [e], src[e := s], dst[e := d], i)
    {
      if nodes[i] == nodes[s] { NumbersDiffer(nodes, num, i, s); }
      if nodes[i] == nodes[d] { NumbersDiffer(nodes, num, i, d); }
      EdgeListed(adj[nodes[i]], edges, src, dst, i, e, s, d, b[nodes[i]]);
    }
  }

  /** Each list loses the edge as often as it touches the node: with the edge gone the lists are exact again. */
  lemma EdgeRemoved(nodes: seq<Node>, adj: map<Node, seq<Edge>>, edges: seq<Edge>, src: map<Edge, int>,
      dst: map<Edge, int>, e: Edge, now: map<Node, seq<Edge>>, left: seq<Edge>)
    requires Adjacent(nodes, adj, edges, src, dst) && e in edges && forall x :: x in left <==> x in edges && x != e
    requires forall i {:trigger nodes[i]} | 0 <= i < |nodes| ::
               nodes[i] in adj && nodes[i] in now
                   && multiset(now[nodes[i]]) == multiset(adj[nodes[i]]) - multiset{e}[e := Touches(src, dst, e, i)]
    ensures Adjacent(nodes, now, left, src, dst)
  {
    hide Touches;
    forall i | 0 <= i < |nodes|
      ensures nodes[i] in now && Exact(now[nodes[i]], left, src, dst, i)
    {
      EdgeUnlisted(adj[nodes[i]], edges, src, dst, i, e, now[nodes[i]], left);
    }
  }

  /** A list that loses the edge as often as it touches i. */
  lemma EdgeUnlisted(list: seq<Edge>, edges: seq<Edge>, src: map<Edge, int>, dst: map<Edge, int>, i: int, e: Edge,
      now: seq<Edge>, left: seq<Edge>)
    requires Exact(list, edges, src, dst, i) && e in edges && forall x :: x in left <==> x in edges && x != e
    requires multiset(now) == multiset(list) - multiset{e}[e := Touches(src, dst, e, i)]
    ensures Exact(now, left, src, dst, i)
  {
    forall x
      ensures multiset(now)[x] == if x in left then Touches(src, dst, x, i) else 0
    {
      assert multiset(list)[x] == if x in edges then Touches(src, dst, x, i) else 0;
    }
  }

  class CGGraph {
    var nodes: seq<Node>                // m_Nodes
    var edges: seq<Edge>                // m_Edges
    var num: map<Node, int>             // m_NodeNum
    var edgeNum: map<Edge, int>         // m_EdgeNum
    var src: map<Edge, int>             // m_From
    var dst: map<Edge, int>             // m_To
    var adj: map<Node, seq<Edge>>       // m_AllEdges

    ghost predicate Valid()
      reads this
    {
      && Numbered(nodes, num) && Numbered(edges, edgeNum) && EndsIn(edges, src, dst, |nodes|)
      && Adjacent(nodes, adj, edges, src, dst)
    }

    constructor ()
      ensures Valid() && nodes == [] && edges == []
    {
      nodes, edges, num, edgeNum, src, dst, adj := [], [], map[], map[], map[], map[], map[];
    }

    /** A new node; NULL is refused. */
    method AddNode(n: Node) returns (number: int)
      requires Valid() && n !in nodes
      modifies `nodes, `num, `adj
      ensures Valid()
      ensures if n == 0 then number == -1 && nodes == old(nodes) && num == old(num) else
                number == |old(nodes)| && nodes == old(nodes) + [n] && num == old(num)[n := number]
    {
      if n == 0 {
        number := -1;
      } else {
        NodeAdded(nodes, num, adj, edges, src, dst, n);
        hide Numbered, EndsIn, Adjacent;
        nodes := nodes + [n];
        num := num[n := |nodes| - 1];
        adj := adj[n := []];
        number := num[n];
      }
    }

    /** CGNode::AddEdge */
    method NodeAddEdge(n: Node, e: Edge)
      requires n in adj
      modifies `adj
      ensures adj == old(adj)[n := old(adj)[n] + [e]]
    {
      adj := adj[n := adj[n] + [e]];
    }

    /** CGNode::RemoveEdge: the first place of the edge is filled with the last entry. */
    method NodeRemoveEdge(n: Node, e: Edge)
      requires n in adj && n in num && e in src && e in dst && (src[e] == num[n] || dst[e] == num[n])
      modifies `adj
      ensures n in adj && adj == old(adj)[n := adj[n]]
      ensures multiset(adj[n]) == multiset(old(adj)[n]) - multiset{e}
    {
      var i := 0;
      var list := adj[n];
      while i < |list| && list[i] != e
        invariant 0 <= i <= |list| && e !in list[..i]
      {
        i := i + 1;
      }
      if i < |list| {
        FilledLoses(list, i);
        adj := adj[n := Filled(list, i)];
      } else {
        assert list[..i] == list;
        assert adj == adj[n := adj[n]];
      }
    }

    /** A new edge between two nodes, made by its constructor; NULL is refused. */
    method AddEdge(e: Edge, s: int, d: int)
      requires Valid() && e !in edges && 0 <= s < |nodes| && 0 <= d < |nodes|
      modifies `edges, `edgeNum, `src, `dst, `adj
      ensures Valid()
      ensures if e == 0 then edges == old(edges) && src == old(src) && dst == old(dst) else
                edges == old(edges) + [e] && src == old(src)[e := s] && dst == old(dst)[e := d]
    {
      hide Numbered, EndsIn, Adjacent, Exact;
      if e != 0 {
        EdgeAdded(nodes, num, adj, edges, src, dst, e, s, d);
        EdgeNumbered(edges, edgeNum, src, dst, |nodes|, e, s, d);
        src, dst := src[e := s], dst[e := d];
        edges := edges + [e];
        edgeNum := edgeNum[e := |edges| - 1];
        NodeAddEdge(nodes[src[e]], e);
        NodeAddEdge(nodes[dst[e]], e);
      }
    }

    /** An edge is taken from both its nodes, and the last edge moves to its place. */
    method RemoveEdge(e: Edge)
      requires Valid() && e in edges
      modifies `edges, `edgeNum, `adj
      ensures Valid() && |edges| == |old(edges)| - 1 && Without(edges, old(edges), e)
    {
      hide Numbered, EndsIn, Adjacent, Filled, Touches, Exact, Without;
      ghost var place := PlaceOf(edges, edgeNum, e);
      EdgeEnds(nodes, num, adj, edges, src, dst, e);
      FilledNumbered(edges, edgeNum, place);
      FewerEnds(edges, src, dst, |nodes|, place);
      NodeRemoveEdge(nodes[dst[e]], e);
      ghost var one := adj;
      NodeRemoveEdge(nodes[src[e]], e);
      EdgeTakenOff(nodes, num, old(adj), edges, src, dst, e, one, adj, Filled(edges, place));
      FillLast(edgeNum[e]);
    }

    /** All edges of a node are removed. */
    method RemoveEdges(n: Node)
      requires Valid() && n in nodes
      modifies `edges, `edgeNum, `adj
      ensures Valid() && n in num && forall x :: x in edges <==> x in old(edges) && Touches(src, dst, x, num[n]) == 0
    {
      hide Numbered, EndsIn, Adjacent, Touches;
      Neighbours(nodes, num, adj, edges, src, dst, n);
      while adj[n] != []
        invariant Valid() && n in adj
        invariant forall x | x in edges :: x in old(edges)
        invariant forall x {:trigger x in edges} | x in old(edges) :: x in edges || Touches(src, dst, x, num[n]) > 0
        invariant forall x {:trigger x in edges} | x in edges && Touches(src, dst, x, num[n]) > 0 :: x in adj[n]
        invariant forall x | x in adj[n] :: x in edges && Touches(src, dst, x, num[n]) > 0
        decreases |edges|
      {
        var e := adj[n][|adj[n]| - 1];
        RemoveEdge(e);
        Neighbours(nodes, num, adj, edges, src, dst, n);
      }
    }

    /** The ends at number `old_` of the edges that a node lists become x: one end for every time the edge is listed. */
    method Repair(tmp: Node, old_: int, x: int)
      requires tmp in adj && Exact(adj[tmp], edges, src, dst, old_) && EndsIn(edges, src, dst, |nodes|) && x != old_
      modifies `src, `dst
      ensures src.Keys == old(src.Keys) && dst.Keys == old(dst.Keys)
      ensures RenamedAll(edges, old(src), old(dst), old_, x, src, dst)
    {
      var list := adj[tmp];
      var i := 0;
      while i < |list|
        invariant 0 <= i <= |list| && src.Keys == old(src.Keys) && dst.Keys == old(dst.Keys)
        invariant forall e {:trigger e in edges} {:trigger src[e]} {:trigger dst[e]} | e in edges ::
            && src[e] == SrcAfter(old(src)[e], old(dst)[e], old_, x, multiset(list[..i])[e])
            && dst[e] == DstAfter(old(dst)[e], old_, x, multiset(list[..i])[e])
      {
        var e := list[i];
        Step(list, i, edges, old(src), old(dst), old_);
        if dst[e] == old_ {
          dst := dst[e := x];
        } else if src[e] == old_ {
          src := src[e := x];
        }
        i := i + 1;
      }
      assert list[..i] == list;
    }

    /** A node and its edges are removed, and the last node takes its number. */
    method RemoveNode(n: Node) returns (moved: Node, oldid: int)
      requires Valid() && (n == 0 || n in nodes)
      modifies this
      ensures Valid()
      ensures n == 0 ==>
              moved == 0 && nodes == old(nodes) && edges == old(edges) && num == old(num) && src == old(src)
              && dst == old(dst)
      ensures n != 0 ==>
                && n in old(num) && nodes == Filled(old(nodes), old(num)[n])
                && Left(old(nodes), old(edges), old(src), old(dst), n, edges)
                && SameEnds(old(nodes), old(src), old(dst), edges, nodes, src, dst)
                && var last := |old(nodes)| - 1;
                   if n == old(nodes)[last] then moved == 0 && num == old(num)
                   else moved == old(nodes)[last] && oldid == last && num == old(num)[moved := old(num)[n]]
    {
      hide Numbered, EndsIn, Adjacent, Exact, Touches, Filled;
      moved, oldid := 0, 0;
      if n == 0 { return; }
      RemoveEdges(n);
      ghost var x := PlaceOf(nodes, num, n);
      FilledNumbered(nodes, num, x);
      var tmp := nodes[|nodes| - 1];
      ghost var at := PlaceOf(nodes, num, tmp);
      NumbersDiffer(nodes, num, at, |nodes| - 1);
      EdgesLeft(nodes, num, old(edges), src, dst, n, edges);
      if n == tmp {
        LastGone(nodes, num, adj, edges, src, dst, x);
        nodes := nodes[..|nodes| - 1];
      } else {
        LastExact(nodes, adj, edges, src, dst);
        ghost var s0, d0 := src, dst;
        Repair(tmp, num[tmp], num[n]);
        NodeMovedTo(nodes, num, adj, edges, s0, d0, x, src, dst);
        FillLastNode(num[n]);
        oldid := num[tmp];
        num := num[tmp := num[n]];
        moved := tmp;
      }
    }

    /** A copy whose nodes and edges have the same numbers and ends; the copies get the addresses 1, 2, 3, .. */
    method Clone() returns (g: CGGraph)
      requires Valid()
      ensures fresh(g) && g.Valid() && |g.nodes| == |nodes| && |g.edges| == |edges|
      ensures forall j {:trigger g.edges[j]} | 0 <= j < |edges| ::
              SameNumbers(edges[j], src, dst, g.edges[j], g.src, g.dst)
    {
      g := new CGGraph();
      for i := 0 to |nodes|
        invariant fresh(g) && g.Valid() && |g.nodes| == i && g.edges == [] && forall n | n in g.nodes :: n <= i
      {
        var k := g.AddNode(i + 1);
      }
      for j := 0 to |edges|
        invariant fresh(g) && g.Valid() && |g.nodes| == |nodes| && |g.edges| == j && forall e | e in g.edges :: e <= j
        invariant forall k {:trigger g.edges[k]} | 0 <= k < j ::
                  SameNumbers(edges[k], src, dst, g.edges[k], g.src, g.dst)
      {
        EdgeIn(edges, src, dst, |nodes|, j);
        g.AddEdge(j + 1, src[edges[j]], dst[edges[j]]);
      }
    }

    /** The last node moves to place i. */
    method FillLastNode(i: int)
      requires 0 <= i < |nodes|
      modifies `nodes
      ensures nodes == Filled(old(nodes), i)
    {
      var tmp := nodes[|nodes| - 1];
      nodes := nodes[i := tmp];
      nodes := nodes[..|nodes| - 1];
    }

    /** The last edge moves to place i. */
    method FillLast(i: int)
      requires 0 <= i < |edges|
      modifies `edges, `edgeNum
      ensures edges == Filled(old(edges), i) && edgeNum == old(edgeNum)[old(edges)[|old(edges)| - 1] := i]
              && |edges| == |old(edges)| - 1
    {
      var replacement := edges[|edges| - 1];
      edges := edges[i := replacement];
      edgeNum := edgeNum[replacement := i];
      edges := edges[..|edges| - 1];
    }
  }

  lemma FewerEnds(edges: seq<Edge>, src: map<Edge, int>, dst: map<Edge, int>, n: nat, i: int)
    requires EndsIn(edges, src, dst, n) && 0 <= i < |edges| && Without(Filled(edges, i), edges, edges[i])
    ensures EndsIn(Filled(edges, i), src, dst, n)
  {
  }

  lemma ListTakenOff(nodes: seq<Node>, num: map<int, int>, adj: map<Node, seq<Edge>>, edges: seq<Edge>,
      src: map<Edge, int>, dst: map<Edge, int>, e: Edge, one: map<Node, seq<Edge>>, two: map<Node, seq<Edge>>, i: int)
    requires Numbered(nodes, num) && Adjacent(nodes, adj, edges, src, dst) && 0 <= i < |nodes|
    requires e in src && e in dst && 0 <= src[e] < |nodes| && 0 <= dst[e] < |nodes| && nodes[dst[e]] in adj
             && nodes[dst[e]] in one
    requires one == adj[nodes[dst[e]] := one[nodes[dst[e]]]]
             && multiset(one[nodes[dst[e]]]) == multiset(adj[nodes[dst[e]]]) - multiset{e}
    requires nodes[src[e]] in one && nodes[src[e]] in two
    requires two == one[nodes[src[e]] := two[nodes[src[e]]]]
             && multiset(two[nodes[src[e]]]) == multiset(one[nodes[src[e]]]) - multiset{e}
    ensures nodes[i] in two
    ensures multiset(two[nodes[i]]) == multiset(adj[nodes[i]]) - multiset{e}[e := Touches(src, dst, e, i)]
  {
    hide Exact;
    assert nodes[i] in adj;
    assert nodes[i] == nodes[src[e]] <==> i == src[e];
    assert nodes[i] == nodes[dst[e]] <==> i == dst[e];
    hide Numbered, Adjacent;
  }

  /** Both nodes lost the edge from their lists. */
  lemma EdgeTakenOff(nodes: seq<Node>, num: map<int, int>, adj: map<Node, seq<Edge>>, edges: seq<Edge>,
      src: map<Edge, int>, dst: map<Edge, int>, e: Edge, one: map<Node, seq<Edge>>, two: map<Node, seq<Edge>>,
      left: seq<Edge>)
    requires Numbered(nodes, num) && Adjacent(nodes, adj, edges, src, dst) && e in edges && Without(left, edges, e)
    requires e in src && e in dst && 0 <= src[e] < |nodes| && 0 <= dst[e] < |nodes| && nodes[dst[e]] in adj
             && nodes[dst[e]] in one
    requires one == adj[nodes[dst[e]] := one[nodes[dst[e]]]]
             && multiset(one[nodes[dst[e]]]) == multiset(adj[nodes[dst[e]]]) - multiset{e}
    requires nodes[src[e]] in one && nodes[src[e]] in two
    requires two == one[nodes[src[e]] := two[nodes[src[e]]]]
             && multiset(two[nodes[src[e]]]) == multiset(one[nodes[src[e]]]) - multiset{e}
    ensures Adjacent(nodes, two, left, src, dst)
  {
    forall i | 0 <= i < |nodes|
      ensures nodes[i] in two
              && multiset(two[nodes[i]]) == multiset(adj[nodes[i]]) - multiset{e}[e := Touches(src, dst, e, i)]
    {
      ListTakenOff(nodes, num, adj, edges, src, dst, e, one, two, i);
    }
    EdgeRemoved(nodes, adj, edges, src, dst, e, two, left);
  }

  lemma EdgeIn(edges: seq<Edge>, src: map<Edge, int>, dst: map<Edge, int>, n: nat, j: int)
    requires EndsIn(edges, src, dst, n) && 0 <= j < |edges|
    ensures edges[j] in src && edges[j] in dst && 0 <= src[edges[j]] < n && 0 <= dst[edges[j]] < n
  {
    var e := edges[j];
    assert e in edges;
  }

  /** Both edges join nodes of the same numbers. */
  ghost predicate SameNumbers(e: Edge, src: map<Edge, int>, dst: map<Edge, int>, f: Edge, fs: map<Edge, int>,
      fd: map<Edge, int>)
  {
    e in src && e in dst && f in fs && f in fd && fs[f] == src[e] && fd[f] == dst[e]
  }

  lemma LastExact(nodes: seq<Node>, adj: map<Node, seq<Edge>>, edges: seq<Edge>, src: map<Edge, int>,
      dst: map<Edge, int>)
    requires Adjacent(nodes, adj, edges, src, dst) && nodes != []
    ensures nodes[|nodes| - 1] in adj && Exact(adj[nodes[|nodes| - 1]], edges, src, dst, |nodes| - 1)
  {
  }

  /** A list stays exact when the edges touch the new number as they touched the old one. */
  lemma ExactRenamed(list: seq<Edge>, edges: seq<Edge>, src: map<Edge, int>, dst: map<Edge, int>, i: int,
      ns: map<Edge, int>, nd: map<Edge, int>, j: int)
    requires Exact(list, edges, src, dst, i) && forall e {:trigger e in edges} | e in edges ::
             Touches(ns, nd, e, j) == Touches(src, dst, e, i)
    ensures Exact(list, edges, ns, nd, j)
  {
    hide Touches;
    forall e
      ensures multiset(list)[e] == if e in edges then Touches(ns, nd, e, j) else 0
    {
      assert multiset(list)[e] == if e in edges then Touches(src, dst, e, i) else 0;
    }
  }

  /** The last node, with no edges, is dropped. */
  lemma LastGone(nodes: seq<Node>, num: map<int, int>, adj: map<Node, seq<Edge>>, edges: seq<Edge>,
      src: map<Edge, int>, dst: map<Edge, int>, x: int)
    requires Numbered(nodes, num) && EndsIn(edges, src, dst, |nodes|) && Adjacent(nodes, adj, edges, src, dst)
    requires x == |nodes| - 1 >= 0 && forall e | e in edges :: Touches(src, dst, e, x) == 0
    ensures var now := nodes[..x];
            && now == Filled(nodes, x) && Numbered(now, num) && EndsIn(edges, src, dst, |now|)
            && Adjacent(now, adj, edges, src, dst)
            && SameEnds(nodes, src, dst, edges, now, src, dst)
  {
    var now := nodes[..x];
    forall i | 0 <= i < |now|
      ensures now[i] in adj && Exact(adj[now[i]], edges, src, dst, i) && now[i] in num && num[now[i]] == i
    {
      assert now[i] == nodes[i];
    }
  }

  ghost predicate RenamedAll(edges: seq<Edge>, src: map<Edge, int>, dst: map<Edge, int>, old_: int, x: int,
      ns: map<Edge, int>, nd: map<Edge, int>)
  {
    forall e {:trigger e in edges} | e in edges ::
      e in src && e in dst && e in ns && e in nd && ns[e] == Renamed(src[e], old_, x)
          && nd[e] == Renamed(dst[e], old_, x)
  }

  /** The last node moves to number x, which no edge touches, and the ends of its edges with it. */
  lemma NodeMovedTo(nodes: seq<Node>, num: map<int, int>, adj: map<Node, seq<Edge>>, edges: seq<Edge>,
      src: map<Edge, int>, dst: map<Edge, int>, x: int, ns: map<Edge, int>, nd: map<Edge, int>)
    requires Numbered(nodes, num) && EndsIn(edges, src, dst, |nodes|) && Adjacent(nodes, adj, edges, src, dst)
    requires 0 <= x < |nodes| - 1 && forall e | e in edges :: Touches(src, dst, e, x) == 0
    requires RenamedAll(edges, src, dst, |nodes| - 1, x, ns, nd)
    ensures var now := Filled(nodes, x);
            EndsIn(edges, ns, nd, |now|) && Adjacent(now, adj, edges, ns, nd)
                && SameEnds(nodes, src, dst, edges, now, ns, nd)
  {
    var now, last := Filled(nodes, x), |nodes| - 1;
    hide Exact;
    forall e {:trigger e in edges} | e in edges
      ensures e in ns && e in nd && 0 <= ns[e] < last && 0 <= nd[e] < last && now[ns[e]] == nodes[src[e]]
              && now[nd[e]] == nodes[dst[e]]
    {
      assert Touches(src, dst, e, x) == 0;
    }
    forall i | 0 <= i < |now|
      ensures now[i] in adj && Exact(adj[now[i]], edges, ns, nd, i)
    {
      var j := if i == x then last else i;
      assert now[i] == nodes[j];
      forall e {:trigger e in edges} | e in edges
        ensures Touches(ns, nd, e, i) == Touches(src, dst, e, j)
      {
        assert Touches(src, dst, e, x) == 0;
      }
      ExactRenamed(adj[nodes[j]], edges, src, dst, j, ns, nd, i);
    }
  }

  /** A node lists just the edges that touch it. */
  lemma Neighbours(nodes: seq<Node>, num: map<int, int>, adj: map<Node, seq<Edge>>, edges: seq<Edge>,
      src: map<Edge, int>, dst: map<Edge, int>, n: Node)
    requires Numbered(nodes, num) && Adjacent(nodes, adj, edges, src, dst) && n in nodes
    ensures n in adj && n in num && forall x {:trigger x in adj[n]} {:trigger x in edges} ::
            x in adj[n] <==> x in edges && Touches(src, dst, x, num[n]) > 0
  {
    var i := PlaceOf(nodes, num, n);
    forall x
      ensures x in adj[n] <==> x in edges && Touches(src, dst, x, i) > 0
    {
      assert x in adj[n] <==> x in multiset(adj[n]);
    }
  }

  lemma EdgeNumbered(edges: seq<Edge>, edgeNum: map<Edge, int>, src: map<Edge, int>, dst: map<Edge, int>, n: nat,
      e: Edge, s: int, d: int)
    requires Numbered(edges, edgeNum) && EndsIn(edges, src, dst, n) && e !in edges && e != 0 && 0 <= s < n && 0 <= d < n
    ensures Numbered(edges + [e], edgeNum[e := |edges|]) && EndsIn(edges + [e], src[e := s], dst[e := d], n)
  {
  }

  lemma PlaceOf(list: seq<int>, num: map<int, int>, x: int) returns (i: int)
    requires Numbered(list, num) && x in list
    ensures 0 <= i < |list| && list[i] == x && x in num && num[x] == i
  {
    i :| 0 <= i < |list| && list[i] == x;
  }

  lemma EdgeEnds(nodes: seq<Node>, num: map<Node, int>, adj: map<Node, seq<Edge>>, edges: seq<Edge>,
      src: map<Edge, int>, dst: map<Edge, int>, e: Edge)
    requires Numbered(nodes, num) && EndsIn(edges, src, dst, |nodes|) && Adjacent(nodes, adj, edges, src, dst)
             && e in edges
    ensures e in src && e in dst && 0 <= src[e] < |nodes| && 0 <= dst[e] < |nodes|
    ensures var d, s := nodes[dst[e]], nodes[src[e]];
            d in num && s in num && num[d] == dst[e] && num[s] == src[e] && d in adj && s in adj
  {
  }
}
