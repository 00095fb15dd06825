/** The open lists of the grid search: `MOpenHeap` and `MOpenArray` of `zgame/pathfinding/MapNode.cpp`. */
module OpenList {

  datatype Cell = Cell(x: int, z: int)

  /** A node of the search: its cell, the cell it was reached from, the estimate h and the cost g so far. */
  datatype Node = Node(cell: Cell, prv: Cell, h: real, g: real) {
    function Cost(): real { g + h }
  }

  // ---------- what an open list is ----------

  /** No cell twice. */
  ghost predicate Distinct(list: seq<Node>) {
    forall i, j | 0 <= i < j < |list| :: list[i].cell != list[j].cell
  }

  ghost predicate HasCell(list: seq<Node>, c: Cell, i: int) {
    0 <= i < |list| && list[i].cell == c
  }

  /** No node of the list is cheaper than cost c. */
  ghost predicate NoneCheaper(list: seq<Node>, c: real) {
    forall i {:trigger list[i]} | 0 <= i < |list| :: c <= list[i].Cost()
  }

  // ---------- the heap order ----------

  function Parent(k: int): int
    requires k > 0
  {
    (k - 1) / 2
  }

  ghost predicate Above(list: seq<Node>, k: int) {
    0 < k < |list| ==> list[Parent(k)].Cost() <= list[k].Cost()
  }

  ghost predicate Heap(list: seq<Node>) {
    forall k {:trigger Above(list, k)} | 0 < k < |list| :: Above(list, k)
  }

  /** Heap order but for place i, which may be too cheap for its parent. */
  ghost predicate HeapButUp(list: seq<Node>, i: int) {
    && 0 <= i < |list|
    && (forall k {:trigger Above(list, k)} | 0 < k < |list| && k != i :: Above(list, k))
    && (forall k {:trigger Parent(k)} | 0 < k < |list| && 0 < i && Parent(k) == i ::
       list[Parent(i)].Cost() <= list[k].Cost())
  }

  /** Heap order but for the children of place i, which may be cheaper than it. */
  ghost predicate HeapButDown(list: seq<Node>, i: int) {
    && 0 <= i
    && (forall k {:trigger Above(list, k)} | 0 < k < |list| && Parent(k) != i :: Above(list, k))
    && (forall k {:trigger Parent(k)} | 0 < k < |list| && 0 < i < |list| && Parent(k) == i ::
       list[Parent(i)].Cost() <= list[k].Cost())
  }

  /** The first node of a heap is a cheapest one. */
  lemma {:induction false} HeapFirst(list: seq<Node>, k: int)
    requires Heap(list) && 0 <= k < |list|
    ensures list[0].Cost() <= list[k].Cost()
    decreases k
  {
    if k > 0 {
      assert Above(list, k);
      HeapFirst(list, Parent(k));
    }
  }

  /** Both places exchanged. */
  function Swapped(list: seq<Node>, i: int, j: int): seq<Node>
    requires 0 <= i < |list| && 0 <= j < |list|
  {
    list[i := list[j]][j := list[i]]
  }

  lemma SwapUp(list: seq<Node>, i: int)
    requires HeapButUp(list, i) && 0 < i && list[Parent(i)].Cost() > list[i].Cost()
    ensures HeapButUp(Swapped(list, i, Parent(i)), Parent(i))
  {
    var p := Parent(i);
    var n := Swapped(list, i, p);
    forall k | 0 < k < |n| && k != p
      ensures Above(n, k)
    {
      assert k != i ==> Above(list, k);
      if k != i && Parent(k) == p { assert Above(list, k); }
      if Parent(k) == i { assert list[p].Cost() <= list[k].Cost(); }
    }
    forall k | 0 < k < |n| && 0 < p && Parent(k) == p
      ensures n[Parent(p)].Cost() <= n[k].Cost()
    {
      assert Above(list, p);
      assert k != i ==> Above(list, k);
    }
  }

  lemma SwapDown(list: seq<Node>, i: int, c: int)
    requires HeapButDown(list, i) && 0 < c < |list| && Parent(c) == i && list[c].Cost() < list[i].Cost()
    requires forall k | 0 < k < |list| && Parent(k) == i :: list[c].Cost() <= list[k].Cost()
    ensures HeapButDown(Swapped(list, i, c), c)
  {
    var n := Swapped(list, i, c);
    forall k | 0 < k < |n| && Parent(k) != c
      ensures Above(n, k)
    {
      if Parent(k) != i { assert Above(list, k); }
      if k == i { assert list[Parent(i)].Cost() <= list[c].Cost(); }
    }
    forall k | 0 < k < |n| && Parent(k) == c
      ensures n[Parent(c)].Cost() <= n[k].Cost()
    {
      assert Above(list, k);
    }
  }

  /** The index knows the place of every cell in the list, and nothing else. */
  ghost predicate Indexed(list: seq<Node>, index: map<Cell, int>) {
    && (forall i {:trigger list[i]} | 0 <= i < |list| :: list[i].cell in index && index[list[i].cell] == i)
    && (forall c {:trigger index[c]} | c in index :: 0 <= index[c] < |list| && list[index[c]].cell == c)
  }

  lemma SwapIndexed(list: seq<Node>, index: map<Cell, int>, i: int, j: int)
    requires Indexed(list, index) && 0 <= i < |list| && 0 <= j < |list| && i != j
    ensures Indexed(Swapped(list, i, j), index[list[j].cell := i][list[i].cell := j])
  {
  }

  /** The list holds exactly the nodes of the map. */
  ghost predicate Mirrors(list: seq<Node>, nodes: map<Cell, Node>) {
    && (forall i {:trigger list[i]} | 0 <= i < |list| :: list[i].cell in nodes && nodes[list[i].cell] == list[i])
    && (forall c | c in nodes :: exists i :: HasCell(list, c, i))
  }

  lemma SwapMirrors(list: seq<Node>, nodes: map<Cell, Node>, i: int, j: int)
    requires Mirrors(list, nodes) && 0 <= i < |list| && 0 <= j < |list|
    ensures Mirrors(Swapped(list, i, j), nodes)
  {
    var n := Swapped(list, i, j);
    forall c | c in nodes
      ensures exists k :: HasCell(n, c, k)
    {
      var k :| HasCell(list, c, k);
      assert HasCell(n, c, if k == i then j else if k == j then i else k);
    }
  }

  lemma Appended(list: seq<Node>, nodes: map<Cell, Node>, node: Node)
    requires Heap(list) && Mirrors(list, nodes) && node.cell !in nodes
    ensures HeapButUp(list + [node], |list|) && Mirrors(list + [node], nodes[node.cell := node])
  {
    var n := list + [node];
    forall k | 0 < k < |n| && k != |list| ensures Above(n, k) { assert Above(list, k); }
    var m := nodes[node.cell := node];
    forall c | c in m
      ensures exists i :: HasCell(n, c, i)
    {
      if c == node.cell {
        assert HasCell(n, c, |list|);
      } else {
        var i :| HasCell(list, c, i);
        assert HasCell(n, c, i);
      }
    }
  }

  /** The last node takes the place of the first. */
  function WithoutFirst(list: seq<Node>): seq<Node>
    requires list != []
  {
    list[0 := list[|list| - 1]][..|list| - 1]
  }

  lemma FirstRemoved(list: seq<Node>, index: map<Cell, int>, nodes: map<Cell, Node>)
    requires Heap(list) && Indexed(list, index) && Mirrors(list, nodes) && list != []
    ensures HeapButDown(WithoutFirst(list), 0)
    ensures Indexed(WithoutFirst(list), index[list[|list| - 1].cell := 0] - {list[0].cell})
    ensures Mirrors(WithoutFirst(list), nodes - {list[0].cell})
  {
    var n := WithoutFirst(list);
    var last := |list| - 1;
    forall k | 0 < k < |n| && Parent(k) != 0 ensures Above(n, k) { assert Above(list, k); }
    forall i | 0 < i < |list| ensures list[i].cell != list[0].cell { assert index[list[i].cell] == i; }
    forall i | 0 < i < last ensures list[i].cell != list[last].cell { assert index[list[i].cell] == i; }
    forall c | c in nodes - {list[0].cell}
      ensures exists i :: HasCell(n, c, i)
    {
      var i :| HasCell(list, c, i);
      assert HasCell(n, c, if i == last then 0 else i);
    }
  }

  /** A place whose cheaper child is not cheaper than it is in order. */
  lemma InOrder(list: seq<Node>, i: int, c: int)
    requires HeapButDown(list, i) && 0 <= i < |list| && 0 < c < |list| && Parent(c) == i
             && list[c].Cost() >= list[i].Cost()
    requires forall k | 0 < k < |list| && Parent(k) == i :: list[c].Cost() <= list[k].Cost()
    ensures Heap(list)
  {
    forall k | 0 < k < |list|
      ensures Above(list, k)
    {
      if Parent(k) != i { assert Above(list, k); }
    }
  }

  lemma NoChild(list: seq<Node>, i: int)
    requires HeapButDown(list, i) && i * 2 + 1 >= |list|
    ensures Heap(list)
  {
    forall k | 0 < k < |list| ensures Above(list, k) { assert Parent(k) != i; }
  }

  lemma Children(i: int, k: int)
    requires 0 <= i && 0 < k
    ensures Parent(k) == i <==> k == i * 2 + 1 || k == i * 2 + 2
  {
  }

  lemma Improved(list: seq<Node>, index: map<Cell, int>, nodes: map<Cell, Node>, i: int, node: Node)
    requires Heap(list) && Indexed(list, index) && Mirrors(list, nodes)
    requires 0 <= i < |list| && node.cell == list[i].cell && node.Cost() <= list[i].Cost()
    ensures HeapButUp(list[i := node], i) && Indexed(list[i := node], index)
            && Mirrors(list[i := node], nodes[node.cell := node])
  {
    var n, m := list[i := node], nodes[node.cell := node];
    forall k | 0 < k < |n| && k != i ensures Above(n, k) { assert Above(list, k); }
    forall k | 0 < k < |n| && 0 < i && Parent(k) == i
      ensures n[Parent(i)].Cost() <= n[k].Cost()
    {
      assert Above(list, k) && Above(list, i);
    }
    forall c | c in m
      ensures exists k :: HasCell(n, c, k)
    {
      var k :| HasCell(list, c, k);
      assert HasCell(n, c, k);
    }
  }

  // ---------- MOpenHeap ----------

  class OpenHeap {
    var list: seq<Node>
    var index: map<Cell, int>           // m_Pos2Index
    ghost var nodes: map<Cell, Node>

    ghost predicate Valid()
      reads this
    {
      Heap(list) && Kept()
    }

    ghost predicate Kept()
      reads this
    {
      Indexed(list, index) && Mirrors(list, nodes)
    }

    constructor ()
      ensures Valid() && nodes == map[]
    {
      list, index, nodes := [], map[], map[];
    }

    method Exchange(i: int, j: int)
      requires Kept() && 0 <= i < |list| && 0 <= j < |list| && i != j
      modifies `list, `index
      ensures Kept() && list == Swapped(old(list), i, j)
    {
      SwapIndexed(list, index, i, j);
      SwapMirrors(list, nodes, i, j);
      var tmp := list[j];
      list := list[j := list[i]];
      list := list[i := tmp];
      index := index[list[i].cell := i];
      index := index[list[j].cell := j];
      assert list == Swapped(old(list), i, j);
    }

    method HeapifyUp(i: int)
      requires HeapButUp(list, i) && Kept()
      modifies `list, `index
      ensures Valid() && |list| == old(|list|)
      decreases i
    {
      if i == 0 {
        return;
      }
      var parent := Parent(i);
      if list[parent].Cost() > list[i].Cost() {
        SwapUp(list, i);
        Exchange(parent, i);
        assert list == Swapped(old(list), i, parent);
        HeapifyUp(parent);
      } else {
        assert Above(list, i);
      }
    }

    method HeapifyDown(i: int)
      requires HeapButDown(list, i) && Kept() && 0 <= i
      modifies `list, `index
      ensures Valid() && |list| == old(|list|)
      decreases |list| - i
    {
      hide Kept, HeapButDown, Heap;
      var child1, child2 := i * 2 + 1, i * 2 + 2;
      if child1 >= |list| {
        NoChild(list, i);
        return;
      }
      var which := if child2 >= |list| || list[child1].Cost() < list[child2].Cost() then child1 else child2;
      forall k | 0 < k < |list| && Parent(k) == i ensures list[which].Cost() <= list[k].Cost() { Children(i, k); }
      Children(i, which);
      if list[which].Cost() < list[i].Cost() {
        SwapDown(list, i, which);
        Exchange(which, i);
        assert list == Swapped(old(list), i, which);
        HeapifyDown(which);
      } else {
        InOrder(list, i, which);
      }
    }

    method Push(node: Node)
      requires Valid() && node.cell !in nodes
      modifies this
      ensures Valid() && nodes == old(nodes)[node.cell := node]
    {
      forall c | c in index ensures c in nodes { assert list[index[c]].cell == c; }
      Appended(list, nodes, node);
      list := list + [node];
      index := index[node.cell := |list| - 1];
      nodes := nodes[node.cell := node];
      HeapifyUp(|list| - 1);
    }

    method Find(c: Cell) returns (i: int)
      requires Valid()
      ensures if c in nodes then 0 <= i < |list| && list[i] == nodes[c] else i == |list|
    {
      if c in index {
        return index[c];
      }
      return |list|;
    }

    /** A cheapest node leaves the list; nothing happens if there is none. */
    method PopMinCost(was: Node) returns (node: Node)
      requires Valid()
      modifies this
      ensures Valid()
      ensures old(nodes) == map[] ==> node == was && nodes == map[]
      ensures old(nodes) != map[] ==>
              node.cell in old(nodes) && old(nodes)[node.cell] == node && nodes == old(nodes) - {node.cell}
      ensures old(nodes) != map[] ==> forall c | c in old(nodes) :: node.Cost() <= old(nodes)[c].Cost()
    {
      if |list| == 0 {
        return was;
      }
      node := list[0];
      forall c | c in nodes
        ensures node.Cost() <= nodes[c].Cost()
      {
        var k :| HasCell(list, c, k);
        HeapFirst(list, k);
      }
      FirstRemoved(list, index, nodes);
      ghost var last := list[|list| - 1].cell;
      list := list[0 := list[|list| - 1]];
      index := index[list[0].cell := 0];
      list := list[..|list| - 1];
      index := index - {node.cell};
      nodes := nodes - {node.cell};
      HeapifyDown(0);
    }

    method DecreaseKey(i: int)
      requires HeapButUp(list, i) && Kept()
      modifies `list, `index
      ensures Valid()
    {
      HeapifyUp(i);
    }

    /** The node at place i gets cheaper in place. */
    method Improve(i: int, node: Node)
      requires Valid() && 0 <= i < |list| && node.cell == list[i].cell && node.Cost() <= list[i].Cost()
      modifies this
      ensures Valid() && nodes == old(nodes)[node.cell := node]
    {
      Improved(list, index, nodes, i, node);
      list := list[i := node];
      nodes := nodes[node.cell := node];
      DecreaseKey(i);
    }
  }

  // ---------- MOpenArray ----------

  class OpenArray {
    var list: seq<Node>
    ghost var nodes: map<Cell, Node>

    ghost predicate Valid()
      reads this
    {
      Distinct(list) && Mirrors(list, nodes)
    }

    constructor ()
      ensures Valid() && nodes == map[]
    {
      list, nodes := [], map[];
    }

    method Push(node: Node)
      requires Valid() && node.cell !in nodes
      modifies this
      ensures Valid() && nodes == old(nodes)[node.cell := node]
    {
      AppendedToArray(list, nodes, node);
      list := list + [node];
      nodes := nodes[node.cell := node];
    }

    method Find(c: Cell) returns (i: int)
      requires Valid()
      ensures if c in nodes then 0 <= i < |list| && list[i] == nodes[c] else i == |list|
    {
      i := 0;
      while i < |list|
        invariant 0 <= i <= |list|
        invariant forall k | 0 <= k < i :: list[k].cell != c
      {
        if list[i].cell == c {
          return;
        }
        i := i + 1;
      }
      forall k ensures !HasCell(list, c, k) {}
    }

    /** The first of the cheapest nodes. */
    method MinIndex() returns (iMin: nat)
      requires list != []
      ensures iMin < |list| && NoneCheaper(list, list[iMin].Cost())
      ensures forall k | 0 <= k < iMin :: list[iMin].Cost() < list[k].Cost()
    {
      iMin := 0;
      var i := 1;
      while i < |list|
        invariant 1 <= i <= |list| && 0 <= iMin < i
        invariant forall k {:trigger list[k]} | 0 <= k < i :: list[iMin].Cost() <= list[k].Cost()
        invariant forall k {:trigger list[k]} | 0 <= k < iMin :: list[iMin].Cost() < list[k].Cost()
      {
        iMin := if list[i].Cost() < list[iMin].Cost() then i else iMin;
        i := i + 1;
      }
    }

    method PopMinCost() returns (node: Node)
      requires Valid() && nodes != map[]
      modifies this
      ensures Valid()
      ensures node.cell in old(nodes) && old(nodes)[node.cell] == node && nodes == old(nodes) - {node.cell}
      ensures forall c | c in old(nodes) :: node.Cost() <= old(nodes)[c].Cost()
      ensures exists i {:trigger HasCell(old(list), node.cell, i)} ::
                HasCell(old(list), node.cell, i) && forall k | 0 <= k < i :: node.Cost() < old(list)[k].Cost()
    {
      NonEmpty(list, nodes);
      var iMin := MinIndex();
      node := list[iMin];
      AtPlace(list, nodes, iMin);
      CheapestOf(list, nodes, node.Cost());
      RemovedFromArray(list, nodes, iMin);
      hide Distinct, Mirrors, HasCell, NoneCheaper, Node.Cost;
      assert HasCell(list, node.cell, iMin);
      list := list[iMin := list[|list| - 1]];
      list := list[..|list| - 1];
      nodes := nodes - {node.cell};
    }

    /** The node at place i gets cheaper in place; DecreaseKey() has nothing to do. */
    method Improve(i: int, node: Node)
      requires Valid() && 0 <= i < |list| && node.cell == list[i].cell
      modifies this
      ensures Valid() && nodes == old(nodes)[node.cell := node]
    {
      ghost var l, m := list, nodes;
      list := list[i := node];
      nodes := nodes[node.cell := node];
      forall c | c in nodes
        ensures exists k :: HasCell(list, c, k)
      {
        var k :| HasCell(l, c, k);
        assert HasCell(list, c, k);
      }
    }
  }

  lemma NonEmpty(list: seq<Node>, nodes: map<Cell, Node>)
    requires Mirrors(list, nodes) && nodes != map[]
    ensures list != []
  {
    var c :| c in nodes;
    var i :| HasCell(list, c, i);
  }

  lemma AtPlace(list: seq<Node>, nodes: map<Cell, Node>, i: nat)
    requires Mirrors(list, nodes) && i < |list|
    ensures HasCell(list, list[i].cell, i) && list[i].cell in nodes && nodes[list[i].cell] == list[i]
  {
  }

  lemma CheapestOf(list: seq<Node>, nodes: map<Cell, Node>, cost: real)
    requires Mirrors(list, nodes) && NoneCheaper(list, cost)
    ensures forall c | c in nodes :: cost <= nodes[c].Cost()
  {
    forall c | c in nodes
      ensures cost <= nodes[c].Cost()
    {
      var k :| HasCell(list, c, k);
    }
  }

  lemma AppendedToArray(list: seq<Node>, nodes: map<Cell, Node>, node: Node)
    requires Distinct(list) && Mirrors(list, nodes) && node.cell !in nodes
    ensures Distinct(list + [node]) && Mirrors(list + [node], nodes[node.cell := node])
  {
    var n, m := list + [node], nodes[node.cell := node];
    forall c | c in m
      ensures exists i :: HasCell(n, c, i)
    {
      if c == node.cell {
        assert HasCell(n, c, |list|);
      } else {
        var i :| HasCell(list, c, i);
        assert HasCell(n, c, i);
      }
    }
  }

  lemma RemovedFromArray(list: seq<Node>, nodes: map<Cell, Node>, i: int)
    requires Distinct(list) && Mirrors(list, nodes) && 0 <= i < |list|
    ensures var n := list[i := list[|list| - 1]][..|list| - 1]; Distinct(n) && Mirrors(n, nodes - {list[i].cell})
  {
    var n := list[i := list[|list| - 1]][..|list| - 1];
    forall c | c in nodes - {list[i].cell}
      ensures exists k :: HasCell(n, c, k)
    {
      var k :| HasCell(list, c, k);
      assert HasCell(n, c, if k == |list| - 1 then i else k);
    }
  }

  // ---------- the interface ----------

  /** MOpen: the search uses either of the two lists through the same contract. */
  class Open {
    const useHeap: bool
    const heap: OpenHeap
    const vect: OpenArray

    ghost function Nodes(): map<Cell, Node>
      reads heap, vect
    {
      if useHeap then heap.nodes else vect.nodes
    }

    ghost predicate Valid()
      reads heap, vect
    {
      if useHeap then heap.Valid() else vect.Valid()
    }

    constructor (useHeap: bool)
      ensures Valid() && Nodes() == map[] && fresh(heap) && fresh(vect) && this.useHeap == useHeap
    {
      this.useHeap := useHeap;
      heap := new OpenHeap();
      vect := new OpenArray();
    }

    function Size(): int
      reads heap, vect
    {
      if useHeap then |heap.list| else |vect.list|
    }

    lemma EmptyIs()
      requires Valid()
      ensures Size() == 0 <==> Nodes() == map[]
    {
      var list := if useHeap then heap.list else vect.list;
      if |list| > 0 {
        assert list[0].cell in Nodes();
      } else {
        assert forall c, i :: !HasCell(list, c, i);
        assert forall c :: c !in Nodes();
      }
    }

    function Get(i: int): Node
      requires 0 <= i < Size()
      reads heap, vect
    {
      if useHeap then heap.list[i] else vect.list[i]
    }

    method Push(node: Node)
      requires Valid() && node.cell !in Nodes()
      modifies heap, vect
      ensures Valid() && Nodes() == old(Nodes())[node.cell := node]
    {
      if useHeap { heap.Push(node); } else { vect.Push(node); }
    }

    method Find(c: Cell) returns (i: int)
      requires Valid()
      ensures if c in Nodes() then 0 <= i < Size() && Get(i) == Nodes()[c] else i == Size()
    {
      if useHeap { i := heap.Find(c); } else { i := vect.Find(c); }
    }

    method PopMinCost(was: Node) returns (node: Node)
      requires Valid() && Nodes() != map[]
      modifies heap, vect
      ensures Valid() && node.cell in old(Nodes()) && old(Nodes())[node.cell] == node
              && Nodes() == old(Nodes()) - {node.cell}
      ensures forall c | c in old(Nodes()) :: node.Cost() <= old(Nodes())[c].Cost()
    {
      if useHeap { node := heap.PopMinCost(was); } else { node := vect.PopMinCost(); }
    }

    method Improve(i: int, node: Node)
      requires Valid() && 0 <= i < Size() && node.cell == Get(i).cell && node.Cost() <= Get(i).Cost()
      modifies heap, vect
      ensures Valid() && Nodes() == old(Nodes())[node.cell := node]
    {
      if useHeap { heap.Improve(i, node); } else { vect.Improve(i, node); }
    }
  }
}
