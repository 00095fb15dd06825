/** How full the nodes are after each step, and which pages the tree owns. */
module IndexFill {
  import opened Sequences
  import opened IndexModel
  import opened IndexSteps
  import opened IndexLoops

  // ---------- insertion ----------

  /** Two fresh pages may be set aside without disturbing the tree; `q` is used only for a new root. */
  ghost predicate SplitReady(s: Store, g: View, root: int, p: int, q: int, b: int, newRoot: int) {
    && Inv(s, g, root) && In(g, p) && s.pg[p].l == 0 && s.pg[p].r == INDEXCOUNT && SizedBut(s, g, root, p)
    && Blank(s, g, b) && 0 < q < |s.pg| && Above(s, g, root, p, q, newRoot) && q != b
  }

  lemma ParentOf(s: Store, g: View, root: int, p: int)
    requires Inv(s, g, root) && In(g, p)
    ensures p == root <==> s.par[p] == 0
    ensures p != root ==> In(g, s.par[p]) && g.h[s.par[p]] == g.h[p] + 1 && NodeAt(s, g, s.par[p])
    ensures p != root ==> s.pg[s.par[p]].l <= s.pp[p] <= s.pg[s.par[p]].r && Kid(s, s.par[p], s.pp[p]) == p
    ensures p == root ==> s.pp[p] == 0
    ensures NodeAt(s, g, p) && NodeBody(s, g, p) && UpOK(s, g, root, p) && 0 < p < |s.pg| && Lengths(s, g)
    ensures In(g, root) && g.h[p] <= g.h[root]
  {
    hide NodeBody;
    assert UpOK(s, g, root, p);
    assert NodeBody(s, g, p);
  }

  lemma SplitReadyIs(s: Store, g: View, t: Store, v: View, root: int, p: int, q: int, b: int)
    requires Inv(s, g, root) && In(g, p) && s.pg[p].l == 0 && s.pg[p].r == INDEXCOUNT && SizedBut(s, g, root, p)
    requires PageAllocated(s, g, t, v, b) && b < |t.pg|
    requires if p == root then q < |s.pg| && q != b && Blank(s, g, q) else q == s.par[p]
    ensures SplitReady(t, v, root, p, q, b, if p == root then q else root)
    ensures v.G == g.G && v.h[p] == g.h[p] && v.h[root] == g.h[root] && t.pp[p] == s.pp[p] && t.pg[p] == s.pg[p]
    ensures |s.pg| <= |t.pg| && 0 < q < |s.pg| && t.pg[q] == s.pg[q]
  {
    hide NodeBody;
    ParentOf(s, g, root, p);
    AllocatedIsBlank(s, g, t, v, b);
    KeptKeepsInv(s, g, t, v, root);
    assert In(g, p) && In(g, root);
    assert t.pg[q] == s.pg[q] && t.par[q] == s.par[q];
  }

  /** The middle child of a full page tells leaves from inner pages. */
  lemma SplitLeafOrInner(s: Store, g: View, root: int, p: int, q: int, b: int, newRoot: int)
    requires SplitReady(s, g, root, p, q, b, newRoot)
    ensures Lengths(s, g) && 0 < q < |s.pg|
    ensures 0 < p < |s.pg| && 0 < b < |s.pg| && p != b && s.pg[p].Framed() && s.pg[b].Framed() && ChildFree(s.pg[b])
    ensures s.pg[p].l == 0 && s.pg[p].r == INDEXCOUNT && s.pg[b].l == 0
    ensures if Kid(s, p, INDEXMINL + 1) == 0 then ChildFree(s.pg[p]) else LinkedBut(s, p, -1)
  {
    assert NodeBody(s, g, p);
    if g.h[p] > 0 {
      InnerLinked(s, g, p, -1);
      assert KidOK(s, g, p, INDEXMINL + 1);
    }
  }

  lemma RootAt(s: Store, g: View, root: int)
    requires Inv(s, g, root)
    ensures In(g, root) && 0 < root < |s.pg| && Lengths(s, g)
  {
  }

  lemma GrownRoot(s: Store, g: View, t: Store, v: View, root: int, b: int)
    requires Inv(s, g, root) && SizedBut(s, g, root, root)
    requires PageAllocated(s, g, t, v, b) && b < |t.pg|
    ensures Inv(t, v, root) && In(v, root) && SizedBut(t, v, root, root) && t.pg[root] == s.pg[root]
            && v.h[root] == g.h[root]
    ensures Blank(t, v, b) && t.pp[root] == s.pp[root] && v.G == g.G
  {
    hide NodeBody, UpOK;
    AllocatedIsBlank(s, g, t, v, b);
    KeptKeepsInv(s, g, t, v, root);
    assert In(g, root);
  }

  /** After the cut both halves are filled as they should be, and the parent has its old fill. */
  lemma CutSized(x: Cutting)
    requires SplitReady(x.s, x.g, x.root, x.p, x.q, x.b, x.newRoot)
    requires Cut(x.s, x.t, x.p, x.b, x.c, x.n) && x.v == CutView(x.s, x.g, x.root, x.p, x.q, x.b)
    ensures Pending(x.t, x.v, x.newRoot, x.q, x.s.pp[x.p], x.s.pg[x.p].slots[INDEXMINL].e, x.p, x.b)
    ensures SizedBut(x.t, x.v, x.newRoot, x.q) && x.t.pg[x.q] == x.s.pg[x.q]
    ensures x.p != x.root ==> SizeOK(x.t, x.v, x.newRoot, x.q)
    ensures x.v.h[x.q] == x.g.h[x.p] + 1
    ensures x.p == x.root ==> x.s.pg[x.q].Size() == 0 && x.newRoot == x.q
    ensures x.p != x.root ==> x.v.h[x.newRoot] == x.g.h[x.root]
    ensures Lengths(x.t, x.v) && In(x.v, x.q) && In(x.v, x.newRoot)
    ensures x.t.pg[x.p].slots[INDEXMINL] == x.s.pg[x.p].slots[INDEXMINL]
    ensures forall i {:trigger In(x.v, i)} :: In(x.v, i) <==> In(x.g, i) || i == x.b || i == x.q
    ensures x.v.G == x.g.G
  {
    hide NodeBody, Pending, ContentSplit;
    ParentOf(x.s, x.g, x.root, x.p);
    CutShape(x);
    x.Pends();
    PendingDomains(x.t, x.v, x.newRoot, x.q, x.s.pp[x.p], x.s.pg[x.p].slots[INDEXMINL].e, x.p, x.b);
    forall i | In(x.v, i) && i != x.q
      ensures NodeAt(x.t, x.v, i) && SizeOK(x.t, x.v, x.newRoot, i)
    {
      if i != x.p && i != x.b {
        assert In(x.g, i);
      }
    }
    assert In(x.v, x.q) && In(x.v, x.newRoot);
  }

  lemma CutShape(x: Cutting)
    requires Cut(x.s, x.t, x.p, x.b, x.c, x.n)
    ensures x.t.pg[x.p].Size() == INDEXMINL && x.t.pg[x.b].Size() == INDEXMINR && x.t.pg[x.p].slots == x.s.pg[x.p].slots
  {
  }

  lemma PendingDomains(s: Store, g: View, root: int, p: int, pos: int, e: Entry, a: int, b: int)
    requires Pending(s, g, root, p, pos, e, a, b)
    ensures Domains(s, g, root) && NodeAt(s, g, p) && NodeAt(s, g, a) && NodeAt(s, g, b) && root != a && root != b
    ensures LinkedBut(s, p, pos) && s.pg[p].l <= pos <= s.pg[p].r && p != a && p != b && a != b && a > 0 && b > 0
    ensures s.pg[p].Size() < INDEXCOUNT
    ensures g.h[p] > 0
  {
    PendingLinked(s, g, p, pos, a, b);
    hide NodeBody, UpOK, PendingEdges, PendingSeps, PendingKids;
  }

  lemma InsertedSized(x: Insertion)
    requires Pending(x.s, x.g, x.root, x.p, x.pos, x.e, x.a, x.b)
    requires SlotInserted(x.s, x.t, x.p, x.n, x.pos, x.d, x.e, x.a, x.b)
    requires SizedBut(x.s, x.g, x.root, x.p)
    ensures Inv(x.t, x.g, x.root) && SizedBut(x.t, x.g, x.root, x.p)
    ensures x.t.pg[x.p].Size() == x.s.pg[x.p].Size() + 1
    ensures x.t.pg[x.p].Size() < INDEXCOUNT && (x.p == x.root || INDEXMINR <= x.s.pg[x.p].Size()) ==>
            Sized(x.t, x.g, x.root)
    ensures NodeAt(x.t, x.g, x.p)
  {
    hide NodeBody, UpOK, PendingEdges, PendingSeps, PendingKids, ContentInserted;
    PendingDomains(x.s, x.g, x.root, x.p, x.pos, x.e, x.a, x.b);
    x.KeepsInv();
    InsertedSize(x.s.pg[x.p], x.n, x.pos, x.d, x.e, x.a, x.b);
    forall i | In(x.g, i) && i != x.p
      ensures NodeAt(x.t, x.g, i) && SizeOK(x.t, x.g, x.root, i)
    {
      assert x.t.pg[i] == x.s.pg[i];
    }
    assert In(x.g, x.p);
  }

  lemma InsertedSize(c: Content, n: Content, pos: int, d: int, e: Entry, a: int, b: int)
    requires c.Framed() && n.Framed() && ContentInserted(c, n, pos, d, e, a, b)
    ensures n.Size() == c.Size() + 1
  {
  }

  // ---------- one entry in a leaf ----------

  ghost function ShiftedView(g: View, x: int, n: int, G: seq<Entry>): View {
    View(g.h, seq(|g.st|, i requires 0 <= i < |g.st| => Shift(x, g.st[i], n)),
         seq(|g.en|, i requires 0 <= i < |g.en| => Shift(if n > 0 then x - 1 else x, g.en[i], n)), G)
  }

  lemma GrowthSized(x: LeafGrowth)
    requires Inv(x.s, x.g, x.root) && In(x.g, x.p) && x.g.h[x.p] == 0 && Sized(x.s, x.g, x.root)
    requires x.s.pg[x.p].Framed() && x.n.Framed() && EntryAdded(x.s.pg[x.p], x.n, x.pos, x.d, x.e)
             && x.t == x.s.(pg := x.s.pg[x.p := x.n])
    requires x.x == x.g.st[x.p] + x.pos - x.s.pg[x.p].l
    requires 0 <= x.x <= |x.g.G| && x.v == ShiftedView(x.g, x.x, 1, Inserted(x.g.G, x.x, x.e))
    ensures Inv(x.t, x.v, x.root) && SizedBut(x.t, x.v, x.root, x.p) && NodeAt(x.t, x.v, x.p)
    ensures x.t.pg[x.p].Size() == x.s.pg[x.p].Size() + 1
    ensures x.t.pg[x.p].Size() < INDEXCOUNT ==> Sized(x.t, x.v, x.root)
    ensures forall i {:trigger In(x.v, i)} {:trigger In(x.g, i)} :: In(x.v, i) <==> In(x.g, i)
    ensures x.v.h == x.g.h && Lengths(x.t, x.v) && x.v.G == Inserted(x.g.G, x.x, x.e)
  {
    hide NodeBody, UpOK, EntryAdded;
    assert x.Step();
    x.KeepsInv();
    AddedSize(x.s.pg[x.p], x.n, x.pos, x.d, x.e);
    forall i | In(x.v, i) && i != x.p
      ensures NodeAt(x.t, x.v, i) && SizeOK(x.t, x.v, x.root, i)
    {
      assert In(x.g, i);
      assert x.t.pg[i] == x.s.pg[i];
    }
    assert In(x.v, x.p) && In(x.g, x.p);
  }

  lemma AddedSize(c: Content, n: Content, pos: int, d: int, e: Entry)
    requires c.Framed() && n.Framed() && EntryAdded(c, n, pos, d, e)
    ensures n.Size() == c.Size() + 1
  {
  }

  lemma LeafFacts(s: Store, g: View, root: int, p: int)
    requires Inv(s, g, root) && In(g, p) && g.h[p] == 0 && Sized(s, g, root)
    ensures Lengths(s, g) && s.pg[p].Size() < INDEXCOUNT
    ensures NodeAt(s, g, p) && s.pg[p].Framed() && ChildFree(s.pg[p]) && g.en[p] - g.st[p] == s.pg[p].Size()
    ensures 0 <= g.st[p] && g.en[p] <= |g.G| && 0 < p < |s.pg|
  {
    assert NodeBody(s, g, p);
  }

  // ---------- deletion ----------

  /** Places ph and ph + 1 of an inner node hold two linked neighbours of one level. */
  lemma NeighbourFacts(s: Store, g: View, root: int, q: int, ph: int)
    requires Inv(s, g, root) && In(g, q) && g.h[q] > 0 && s.pg[q].l <= ph < s.pg[q].r
    ensures var a, b := Kid(s, q, ph), Kid(s, q, ph + 1);
            && Neighbours(s, q, ph, a, b) && In(g, a) && In(g, b) && g.h[a] == g.h[b] == g.h[q] - 1
            && IsKid(s, q, b) && IsKid(s, q, a) && s.pp[a] == ph && s.pp[b] == ph + 1 && s.par[a] == q && s.par[b] == q
    ensures LinkedBut(s, q, ph + 1) && Lengths(s, g)
    ensures In(g, root) && g.h[q] <= g.h[root] && 0 < q < |s.pg|
  {
    assert NodeBody(s, g, q);
    assert KidOK(s, g, q, ph) && KidOK(s, g, q, ph + 1);
    InnerLinked(s, g, q, ph + 1);
    hide NodeBody, UpOK, SepOK, LinkedBut;
  }

  /** A leaf has no children in any slot, an inner node has one in every used slot. */
  lemma LeafOrInner(s: Store, g: View, root: int, p: int)
    requires Inv(s, g, root) && In(g, p)
    ensures NodeAt(s, g, p) && s.pg[p].Framed() && Lengths(s, g) && 0 < p < |s.pg|
    ensures g.h[p] == 0 ==> ChildFree(s.pg[p])
    ensures g.h[p] > 0 ==> LinkedBut(s, p, -1) && !ChildFree(s.pg[p])
    ensures forall j {:trigger s.pg[p].slots[j]} | s.pg[p].l <= j <= s.pg[p].r ::
              (s.pg[p].slots[j].child == 0 <==> g.h[p] == 0) && s.pg[p].slots[j].child < |s.pg|
  {
    assert NodeBody(s, g, p);
    if g.h[p] > 0 {
      InnerLinked(s, g, p, -1);
      forall j | s.pg[p].l <= j <= s.pg[p].r
        ensures 0 < s.pg[p].slots[j].child < |s.pg|
      {
        assert KidOK(s, g, p, j);
      }
    }
  }

  lemma SlidSized(s: Store, t: Store, g: View, root: int, p: int, to: int, but: int)
    requires Inv(s, g, root) && In(g, p) && 0 <= p < |s.pg| == |t.pg| && Slid(s, t, p, t.pg[p], to)
             && SizedBut(s, g, root, but)
    ensures Inv(t, g, root) && SizedBut(t, g, root, but) && t.pg[p].Size() == s.pg[p].Size() && t.pg[p].l == to
    ensures t.pg[p].r == to + s.pg[p].Size()
    ensures t.par == s.par
    ensures forall i | 0 <= i < |s.pg| && i != p :: t.pg[i] == s.pg[i]
  {
    SlidKeepsInv(s, t, g, root, p, t.pg[p], to);
    hide NodeBody, UpOK;
    forall i | In(g, i) && i != but
      ensures NodeAt(t, g, i) && SizeOK(t, g, root, i)
    {
    }
  }

  lemma SizedFrom(s: Store, g: View, t: Store, v: View, root: int, a: int, b: int, q: int)
    requires Domains(t, v, root) && SizedBut(s, g, root, a)
    requires |s.pg| == |t.pg| && (forall i | 0 <= i < |s.pg| && i != a && i != b && i != q :: t.pg[i] == s.pg[i])
    requires v.h == g.h && a != q && a != b && b != q && In(g, a) && In(g, b) && In(g, q) && a != root && b != root
    requires INDEXMINR <= t.pg[a].Size() < INDEXCOUNT && INDEXMINR <= t.pg[b].Size() < INDEXCOUNT
             && t.pg[q].Size() == s.pg[q].Size()
    ensures Sized(t, v, root)
  {
    forall i | In(v, i)
      ensures NodeAt(t, v, i) && SizeOK(t, v, root, i)
    {
      assert In(g, i);
      if i != a && i != b { assert SizeOK(s, g, root, i); }
    }
  }

  lemma NonRoots(s: Store, g: View, root: int, q: int, ph: int)
    requires Inv(s, g, root) && In(g, q) && g.h[q] > 0 && s.pg[q].l <= ph < s.pg[q].r
    ensures Kid(s, q, ph) != root && Kid(s, q, ph + 1) != root
  {
    NeighbourFacts(s, g, root, q, ph);
    hide NodeBody, LinkedBut, Neighbours, IsKid;
    assert UpOK(s, g, root, root);
  }

  /** The view after a borrow: the separator moves to position m. */
  ghost function RotatedView(g: View, a: int, b: int, m: int): View
    requires 0 <= a < |g.en| && 0 <= b < |g.st|
  {
    g.(en := g.en[a := m], st := g.st[b := m + 1])
  }

  lemma RotatedLeftSized(s: Store, t: Store, g: View, v: View, root: int, q: int, ph: int, a: int, b: int, m: int)
    requires Inv(s, g, root) && In(g, q) && g.h[q] > 0 && Neighbours(s, q, ph, a, b) && SizedBut(s, g, root, a)
    requires s.pg[a].Size() == INDEXMINR - 1 && s.pg[b].Size() > INDEXMINR && s.pg[a].r < INDEXCOUNT
    requires Kid(s, b, s.pg[b].l) < |s.pg| && |g.en| == |g.st| == |s.pg|
    requires if g.h[a] == 0 then t == RotateLeftLeaf(s, q, ph, a, b) && m == g.en[a] + 1
             else t == RotateLeftInner(s, q, ph, a, b) && m == g.en[Kid(s, b, s.pg[b].l)]
    requires v == RotatedView(g, a, b, m)
    ensures Inv(t, v, root) && Sized(t, v, root) && Lengths(t, v) && v.h == g.h && v.G == g.G
    ensures forall i {:trigger In(v, i)} {:trigger In(g, i)} :: In(v, i) <==> In(g, i)
  {
    hide NodeBody, UpOK, LinkedBut, RotateLeftInner, RotateLeftLeaf;
    NeighbourFacts(s, g, root, q, ph);
    LeafOrInner(s, g, root, a);
    LeafOrInner(s, g, root, b);
    assert s.pg[b].slots[s.pg[b].l].child == 0 <==> g.h[b] == 0;
    RotateLeftEnd(s, g, root, q, ph, a, b, t, m);
    var x := Rotation(s, t, g, v, root, q, ph, a, b, t.pg[a], t.pg[b], t.pg[q], Kid(s, b, s.pg[b].l), m);
    x.ToLeftKeepsInv();
    NonRoots(s, g, root, q, ph);
    RotatedContents(x);
    SizedFrom(s, g, t, v, root, a, b, q);
  }

  lemma RotatedContents(x: Rotation)
    requires x.Step()
    ensures |x.s.pg| == |x.t.pg| && x.t.pg[x.q].Size() == x.s.pg[x.q].Size()
    ensures forall i | 0 <= i < |x.s.pg| && i != x.a && i != x.b && i != x.q :: x.t.pg[i] == x.s.pg[i]
    ensures x.ToLeftStep() ==>
            x.t.pg[x.a].Size() == x.s.pg[x.a].Size() + 1 && x.t.pg[x.b].Size() == x.s.pg[x.b].Size() - 1
    ensures x.ToRightStep() ==>
            x.t.pg[x.a].Size() == x.s.pg[x.a].Size() - 1 && x.t.pg[x.b].Size() == x.s.pg[x.b].Size() + 1
    ensures Lengths(x.s, x.g) && Lengths(x.t, x.v)
  {
  }

  lemma RotatedRightSized(s: Store, t: Store, g: View, v: View, root: int, q: int, ph: int, a: int, b: int, m: int)
    requires Inv(s, g, root) && In(g, q) && g.h[q] > 0 && Neighbours(s, q, ph, a, b) && SizedBut(s, g, root, b)
    requires s.pg[b].Size() == INDEXMINR - 1 && s.pg[a].Size() > INDEXMINR && 0 < s.pg[b].l
    requires Kid(s, a, s.pg[a].r) < |s.pg| && |g.en| == |g.st| == |s.pg|
    requires if g.h[b] == 0 then t == RotateRightLeaf(s, q, ph, a, b) && m == g.en[a] - 1
             else t == RotateRightInner(s, q, ph, a, b) && m == g.st[Kid(s, a, s.pg[a].r)] - 1
    requires v == RotatedView(g, a, b, m)
    ensures Inv(t, v, root) && Sized(t, v, root) && Lengths(t, v) && v.h == g.h && v.G == g.G
    ensures forall i {:trigger In(v, i)} {:trigger In(g, i)} :: In(v, i) <==> In(g, i)
  {
    hide NodeBody, UpOK, LinkedBut, RotateRightInner, RotateRightLeaf;
    NeighbourFacts(s, g, root, q, ph);
    LeafOrInner(s, g, root, a);
    LeafOrInner(s, g, root, b);
    assert s.pg[a].slots[s.pg[a].r].child == 0 <==> g.h[a] == 0;
    RotateRightEnd(s, g, root, q, ph, a, b, t, m);
    var x := Rotation(s, t, g, v, root, q, ph, a, b, t.pg[a], t.pg[b], t.pg[q], Kid(s, a, s.pg[a].r), m);
    x.ToRightKeepsInv();
    NonRoots(s, g, root, q, ph);
    RotatedContents(x);
    SizedFrom(s, g, t, v, root, b, a, q);
  }

  ghost function MergedView(g: View, a: int, b: int): View
    requires 0 <= a < |g.en| && 0 <= b < |g.en| && b < |g.h|
  {
    g.(h := g.h[b := -1], en := g.en[a := g.en[b]])
  }

  /** A join leaves the parent's links alone. */
  lemma JoinedParent(s: Store, t: Store, g: View, root: int, q: int, ph: int, a: int, b: int)
    requires Inv(s, g, root) && In(g, q) && g.h[q] > 0 && Neighbours(s, q, ph, a, b)
    requires PagesJoined(s, t, a, b, s.pg[q].slots[ph].e)
    ensures LinkedBut(t, q, ph + 1) && t.pg[q] == s.pg[q]
  {
    hide NodeBody, UpOK, ContentJoined;
    NeighbourFacts(s, g, root, q, ph);
    forall j | s.pg[q].l <= j <= s.pg[q].r && j != ph + 1
      ensures IsKid(t, q, Kid(t, q, j)) && t.pp[Kid(t, q, j)] == j && Kid(t, q, j) != q
    {
      assert IsKid(s, q, Kid(s, q, j));
    }
  }

  lemma JoinedSizes(s: Store, t: Store, u: Store, q: int, ph: int, a: int, b: int, d: int)
    requires |u.pg| == |s.pg| && 0 < q < |s.pg| && q != a && q != b && s.pg[q].Framed() && s.pg[q].l <= ph < s.pg[q].r
    requires PagesJoined(s, t, a, b, s.pg[q].slots[ph].e) && SlotDropped(t, u, q, u.pg[q], ph, d)
    ensures u.pg[a].Size() == s.pg[a].Size() + 1 + s.pg[b].Size() && u.pg[q].Size() == s.pg[q].Size() - 1
    ensures forall i | 0 <= i < |s.pg| && i != a && i != q :: u.pg[i] == s.pg[i]
    ensures u.pg[q].l <= ph + d <= u.pg[q].r && u.pg[q].slots[ph + d].child == s.pg[q].slots[ph].child
  {
  }

  /** A merge of two neighbours that fit keeps the tree; only the parent may now be short. */
  lemma MergedSized(s: Store, t: Store, u: Store, g: View, v: View, root: int, q: int, ph: int, a: int, b: int,
      d: int, but: int)
    requires Inv(s, g, root) && In(g, q) && g.h[q] > 0 && Neighbours(s, q, ph, a, b)
    requires SizedBut(s, g, root, but) && (but == a || but == b)
    requires s.pg[a].Size() + s.pg[b].Size() == 2 * INDEXMINR - 1
    requires |u.pg| == |s.pg| && PagesJoined(s, t, a, b, s.pg[q].slots[ph].e) && SlotDropped(t, u, q, u.pg[q], ph, d)
    requires Lengths(s, g) && v == MergedView(g, a, b)
    ensures Inv(u, v, root) && SizedBut(u, v, root, q) && Lengths(u, v) && v.G == g.G
    ensures In(v, q) && In(v, a) && In(v, root) && v.h[q] == g.h[q] && v.h[root] == g.h[root]
    ensures u.pg[q].Size() == s.pg[q].Size() - 1
    ensures q == root || u.pg[q].Size() >= INDEXMINR - 1
    ensures u.pg[q].Size() < INDEXCOUNT - 1 && u.pg[q].Framed() && 0 < q < |u.pg| && 0 < a < |u.pg|
    ensures u.pg[q].Size() == 0 ==> Kid(u, q, u.pg[q].l) == a
    ensures forall i {:trigger In(v, i)} {:trigger In(g, i)} :: In(v, i) <==> In(g, i) && i != b
    ensures In(g, b)
  {
    hide NodeBody, UpOK, LinkedBut, PagesJoined, SlotDropped, ContentJoined, ContentDropped;
    NeighbourFacts(s, g, root, q, ph);
    JoinedShape(s, t, a, b, s.pg[q].slots[ph].e);
    MergeEnd(s, t, u, g, v, root, q, ph, a, b, d);
    var x := Merging(s, u, g, v, root, q, ph, a, b, u.pg[a], u.pg[q], d);
    x.KeepsInv();
    NonRoots(s, g, root, q, ph);
    JoinedSizes(s, t, u, q, ph, a, b, d);
    forall i | In(v, i) && i != q
      ensures NodeAt(u, v, i) && SizeOK(u, v, root, i)
    {
      assert In(g, i);
    }
    assert SizeOK(s, g, root, q);
    assert In(v, root) && In(v, q) && In(v, a);
  }

  lemma JoinedShape(s: Store, t: Store, a: int, b: int, e: Entry)
    requires PagesJoined(s, t, a, b, e)
    ensures |t.pg| == |s.pg| == |s.par| == |s.pp| == |t.par| == |t.pp|
  {
  }

  lemma Unmerged(s: Store, g: View, root: int, q: int)
    requires Inv(s, g, root) && SizedBut(s, g, root, q) && In(g, q) && NodeAt(s, g, q) && SizeOK(s, g, root, q)
    ensures Sized(s, g, root)
  {
    forall i | In(g, i)
      ensures NodeAt(s, g, i) && SizeOK(s, g, root, i)
    {
      if i != q {}
    }
  }

  lemma CollapsedSized(s: Store, t: Store, g: View, v: View, root: int, a: int)
    requires Inv(s, g, root) && g.h[root] > 0 && s.pg[root].Size() == 0 && SizedBut(s, g, root, root)
    requires a == Kid(s, root, s.pg[root].l) && 0 < a < |s.par| && t == WithParent(s, a, 0, 0)
             && v == g.(h := g.h[root := -1])
    ensures Inv(t, v, a) && Sized(t, v, a) && Lengths(t, v) && v.G == g.G
    ensures forall i {:trigger In(v, i)} {:trigger In(g, i)} :: In(v, i) <==> In(g, i) && i != root
  {
    KidOfRoot(s, g, root, a);
    CollapseKeepsInv(s, t, g, v, root, a);
    hide NodeBody, UpOK;
    forall i | In(v, i)
      ensures NodeAt(t, v, i) && SizeOK(t, v, a, i)
    {
      assert In(g, i);
    }
  }

  lemma KidOfRoot(s: Store, g: View, root: int, a: int)
    requires Inv(s, g, root) && g.h[root] > 0 && a == Kid(s, root, s.pg[root].l)
    ensures In(g, a) && a != root
  {
    assert NodeBody(s, g, root);
    assert KidOK(s, g, root, s.pg[root].l);
  }

  /** The neighbour of a node that is short has at least the minimum. */
  lemma MinimalNeighbour(s: Store, g: View, root: int, q: int, ph: int, p: int)
    requires Inv(s, g, root) && In(g, q) && g.h[q] > 0 && s.pg[q].l <= ph < s.pg[q].r && SizedBut(s, g, root, p)
    requires p == Kid(s, q, ph) || p == Kid(s, q, ph + 1)
    ensures var b := if p == Kid(s, q, ph) then Kid(s, q, ph + 1) else Kid(s, q, ph);
            0 < b < |s.pg| && INDEXMINR <= s.pg[b].Size()
  {
    hide NodeBody, UpOK, LinkedBut;
    NeighbourFacts(s, g, root, q, ph);
    NonRoots(s, g, root, q, ph);
    var b := if p == Kid(s, q, ph) then Kid(s, q, ph + 1) else Kid(s, q, ph);
    assert SizeOK(s, g, root, b);
  }

  /** An inner node above a short one holds an entry. */
  lemma ParentHasEntry(s: Store, g: View, root: int, q: int)
    requires Inv(s, g, root) && In(g, q) && q != root && SizedBut(s, g, root, q)
    ensures var up := s.par[q]; 0 < up < |s.pg| && s.pg[up].l < s.pg[up].r && g.h[up] == g.h[q] + 1
  {
    hide NodeBody;
    ParentOf(s, g, root, q);
    assert SizeOK(s, g, root, s.par[q]);
  }

  lemma RemovedSize(c: Content, n: Content, pos: int, d: int)
    requires c.Framed() && n.Framed() && EntryRemoved(c, n, pos, d)
    ensures n.Size() == c.Size() - 1
  {
  }

  lemma LossSized(x: LeafLoss)
    requires Inv(x.s, x.g, x.root) && In(x.g, x.p) && x.g.h[x.p] == 0 && Sized(x.s, x.g, x.root)
    requires x.s.pg[x.p].Framed() && x.n.Framed() && EntryRemoved(x.s.pg[x.p], x.n, x.pos, x.d)
             && x.t == x.s.(pg := x.s.pg[x.p := x.n])
    requires x.x == x.g.st[x.p] + x.pos - x.s.pg[x.p].l && 0 <= x.x < |x.g.G|
    requires x.v == ShiftedView(x.g, x.x, -1, Removed(x.g.G, x.x))
    ensures Inv(x.t, x.v, x.root) && SizedBut(x.t, x.v, x.root, x.p) && NodeAt(x.t, x.v, x.p)
    ensures x.t.pg[x.p].Size() == x.s.pg[x.p].Size() - 1 && In(x.v, x.p) && In(x.v, x.root)
    ensures x.p == x.root || x.t.pg[x.p].Size() >= INDEXMINR - 1
    ensures x.p == x.root || x.t.pg[x.p].Size() >= INDEXMINR ==> Sized(x.t, x.v, x.root)
    ensures forall i {:trigger In(x.v, i)} {:trigger In(x.g, i)} :: In(x.v, i) <==> In(x.g, i)
    ensures x.v.h == x.g.h && Lengths(x.t, x.v) && x.v.G == Removed(x.g.G, x.x)
  {
    hide NodeBody, UpOK, EntryRemoved;
    assert x.Step();
    x.KeepsInv();
    RemovedSize(x.s.pg[x.p], x.n, x.pos, x.d);
    assert SizeOK(x.s, x.g, x.root, x.p);
    forall i | In(x.v, i) && i != x.p
      ensures NodeAt(x.t, x.v, i) && SizeOK(x.t, x.v, x.root, i)
    {
      assert In(x.g, i);
      assert x.t.pg[i] == x.s.pg[i];
    }
    assert In(x.v, x.p) && In(x.g, x.p) && In(x.v, x.root);
  }

  /** The position of an entry lies in its node's interval and holds the entry. */
  lemma PositionAt(s: Store, g: View, root: int, p: int, pos: int)
    requires Inv(s, g, root) && In(g, p) && s.pg[p].l <= pos < s.pg[p].r
    ensures NodeAt(s, g, p) && Lengths(s, g) && 0 <= Position(s, g, p, pos) < |g.G|
    ensures g.st[p] <= Position(s, g, p, pos) < g.en[p]
    ensures g.G[Position(s, g, p, pos)] == s.pg[p].slots[pos].e
    ensures g.h[p] > 0 ==> KidOK(s, g, p, pos) && KidOK(s, g, p, pos + 1)
    ensures g.h[p] > 0 ==>
            g.en[Kid(s, p, pos)] == Position(s, g, p, pos) && g.st[Kid(s, p, pos + 1)] == Position(s, g, p, pos) + 1
  {
    RankAt(s, g, root, p, pos);
    if g.h[p] > 0 {
      assert NodeBody(s, g, p);
      assert SepOK(s, g, p, pos);
    }
  }

  /** One step down the right edge of a subtree. */
  lemma RightChild(s: Store, g: View, root: int, q: int)
    requires Inv(s, g, root) && In(g, q) && g.h[q] > 0
    ensures var c := Kid(s, q, s.pg[q].r);
            In(g, c) && g.h[c] == g.h[q] - 1 && g.en[c] == g.en[q] && c != root && 0 < c < |s.pg|
  {
    assert NodeBody(s, g, q);
    assert KidOK(s, g, q, s.pg[q].r);
    assert UpOK(s, g, root, root);
  }

  /** One step down the left edge of a subtree. */
  lemma LeftChild(s: Store, g: View, root: int, q: int)
    requires Inv(s, g, root) && In(g, q) && g.h[q] > 0
    ensures var c := Kid(s, q, s.pg[q].l);
            In(g, c) && g.h[c] == g.h[q] - 1 && g.st[c] == g.st[q] && c != root && 0 < c < |s.pg|
    ensures g.en[Kid(s, q, s.pg[q].l)] <= g.en[q]
  {
    assert NodeBody(s, g, q);
    KidInside(s, g, q, s.pg[q].l);
    assert KidOK(s, g, q, s.pg[q].l);
    assert UpOK(s, g, root, root);
  }

  lemma OverwriteSized(x: Overwrite)
    requires Inv(x.s, x.g, x.root) && In(x.g, x.q) && Sized(x.s, x.g, x.root)
    requires x.s.pg[x.q].l <= x.ph < x.s.pg[x.q].r && x.x == Position(x.s, x.g, x.q, x.ph)
    requires x.t == WithSlot(x.s, x.q, x.ph, Slot(x.s.pg[x.q].slots[x.ph].child, x.e)) && x.n == x.t.pg[x.q]
    requires 0 <= x.x < |x.g.G| && x.v == x.g.(G := x.g.G[x.x := x.e])
    ensures Inv(x.t, x.v, x.root) && Sized(x.t, x.v, x.root) && Lengths(x.t, x.v)
    ensures forall i {:trigger In(x.v, i)} {:trigger In(x.g, i)} :: In(x.v, i) <==> In(x.g, i)
  {
    PositionAt(x.s, x.g, x.root, x.q, x.ph);
    hide NodeBody, UpOK;
    x.KeepsInv();
    forall i | In(x.v, i)
      ensures NodeAt(x.t, x.v, i) && SizeOK(x.t, x.v, x.root, i)
    {
      assert In(x.g, i);
      assert SizeOK(x.s, x.g, x.root, i);
    }
  }

  lemma RemovePredecessor(G: seq<Entry>, x: int)
    requires 0 < x < |G|
    ensures Removed(G[x := G[x - 1]], x - 1) == Removed(G, x)
  {
  }

  lemma ChildNotRoot(s: Store, g: View, root: int, p: int, j: int)
    requires Inv(s, g, root) && In(g, p) && g.h[p] > 0 && s.pg[p].l <= j <= s.pg[p].r
    ensures var c := Kid(s, p, j); In(g, c) && c != root && c != p && g.h[c] == g.h[p] - 1 && 0 < c < |s.pg|
  {
    assert NodeBody(s, g, p);
    assert KidOK(s, g, p, j);
    assert UpOK(s, g, root, root);
  }

  lemma LastOfLeaf(s: Store, g: View, root: int, q: int)
    requires Inv(s, g, root) && In(g, q) && g.h[q] == 0 && q != root && Sized(s, g, root)
    ensures s.pg[q].l < s.pg[q].r && Position(s, g, q, s.pg[q].r - 1) == g.en[q] - 1 && 0 < g.en[q] <= |g.G|
  {
    LeafFacts(s, g, root, q);
    hide NodeBody, UpOK;
    assert SizeOK(s, g, root, q);
  }
}
