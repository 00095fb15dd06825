/** What one step of the B-tree does to pages, and that it keeps the invariant of `IndexModel`. */
module IndexSteps {
  import opened Sequences
  import opened IndexModel

  /** `c` hangs below `p`: the down link and the up link agree. */
  ghost predicate IsKid(s: Store, p: int, c: int) {
    && 0 <= p < |s.pg| && 0 < c < |s.par| && c < |s.pp| && s.pg[p].Framed()
    && s.par[c] == p && s.pg[p].l <= s.pp[c] <= s.pg[p].r
    && Kid(s, p, s.pp[c]) == c
  }

  /** Only the content of page `p` differs, and it becomes `c`. */
  ghost predicate OnlyPage(s: Store, t: Store, p: int, c: Content) {
    && 0 <= p < |s.pg| == |s.par| == |s.pp| && s.pg[p].Framed() && c.Framed()
    && t.pg == s.pg[p := c]
  }

  /** The children of `p` at places lo .. hi move by `d`; no other place changes. */
  ghost predicate PlacesShifted(s: Store, t: Store, p: int, lo: int, hi: int, d: int) {
    && t.par == s.par && |t.pp| == |s.pp|
    && (forall c {:trigger t.pp[c]} | 0 <= c < |s.pp| ::
          t.pp[c] == if IsKid(s, p, c) && lo <= s.pp[c] <= hi then s.pp[c] + d else s.pp[c])
  }

  /** The children of node `i` stay where they are. */
  ghost predicate PlacesKept(s: Store, g: View, t: Store, i: int) {
    && |g.h| <= |t.pp| == |t.par| && |g.h| <= |s.pp| == |s.par|
    && (forall c {:trigger t.pp[c]} {:trigger t.par[c]} | In(g, c) && s.par[c] == i ::
          t.par[c] == i && t.pp[c] == s.pp[c])
  }

  ghost predicate ViewKept(s: Store, g: View, v: View, i: int) {
    && v.G == g.G && |g.h| == |g.st| == |g.en| == |s.par| <= |v.h| == |v.st| == |v.en|
    && 0 <= i < |g.h| && v.h[i] == g.h[i] && v.st[i] == g.st[i] && v.en[i] == g.en[i]
    && (forall c {:trigger s.par[c]} | In(g, c) && s.par[c] == i ::
          v.h[c] == g.h[c] && v.st[c] == g.st[c] && v.en[c] == g.en[c])
  }

  ghost predicate AllAt(s: Store, g: View) {
    forall i {:trigger In(g, i)} | In(g, i) :: NodeAt(s, g, i)
  }

  /** A node whose page, place, children and intervals are untouched stays in order. */
  lemma NodeKept(s: Store, g: View, t: Store, v: View, i: int)
    requires NodeAt(s, g, i) && NodeBody(s, g, i) && NodeAt(t, v, i) && AllAt(t, v)
    requires t.pg[i] == s.pg[i] && PlacesKept(s, g, t, i) && ViewKept(s, g, v, i)
    ensures NodeBody(t, v, i)
  {
    if g.h[i] > 0 {
      forall j | t.pg[i].l <= j <= t.pg[i].r
        ensures KidOK(t, v, i, j)
      {
        KidKept(s, g, t, v, i, j);
      }
      forall j | t.pg[i].l <= j < t.pg[i].r
        ensures SepOK(t, v, i, j)
      {
        KidKept(s, g, t, v, i, j);
        KidKept(s, g, t, v, i, j + 1);
        assert SepOK(s, g, i, j);
      }
    }
  }

  lemma KidKept(s: Store, g: View, t: Store, v: View, i: int, j: int)
    requires NodeAt(s, g, i) && KidsOK(s, g, i) && NodeAt(t, v, i) && AllAt(t, v)
    requires t.pg[i] == s.pg[i] && PlacesKept(s, g, t, i) && ViewKept(s, g, v, i)
    requires s.pg[i].l <= j <= s.pg[i].r
    ensures KidOK(s, g, i, j) && KidOK(t, v, i, j) && ViewKept(s, g, v, i)
    ensures var c := Kid(s, i, j); v.st[c] == g.st[c] && v.en[c] == g.en[c]
  {
    assert KidOK(s, g, i, j);
    assert In(g, Kid(s, i, j));
    assert In(v, Kid(s, i, j));
  }

  /** A child that moves from place j to place k of the same node. */
  lemma KidMoved(s: Store, t: Store, g: View, i: int, j: int, k: int)
    requires KidOK(s, g, i, j) && NodeAt(t, g, i) && AllAt(t, g) && 0 <= k <= INDEXCOUNT
    requires Kid(t, i, k) == Kid(s, i, j)
    requires t.par[Kid(s, i, j)] == i && t.pp[Kid(s, i, j)] == k
    ensures KidOK(t, g, i, k)
  {
    assert In(g, Kid(s, i, j));
  }

  // ---------- sliding the content of a page inside its buffer ----------

  ghost predicate ContentSlid(c: Content, d: Content, to: int)
    requires c.Framed() && d.Framed()
  {
    && d.l == to && d.Size() == c.Size()
    && (forall j {:trigger d.slots[j]} | to <= j < d.r :: d.slots[j].e == c.slots[j - to + c.l].e)
    && (forall j {:trigger d.slots[j]} | to <= j <= d.r :: d.slots[j].child == c.slots[j - to + c.l].child)
    && (ChildFree(c) ==> ChildFree(d))
  }

  /** Page `p` now holds its content from slot `to` on. */
  ghost predicate Slid(s: Store, t: Store, p: int, c: Content, to: int) {
    && OnlyPage(s, t, p, c) && ContentSlid(s.pg[p], c, to)
    && PlacesShifted(s, t, p, s.pg[p].l, s.pg[p].r, to - s.pg[p].l)
  }

  lemma SlidKid(s: Store, t: Store, g: View, p: int, c: Content, to: int, j: int)
    requires NodeAt(s, g, p) && KidsOK(s, g, p) && NodeAt(t, g, p) && AllAt(t, g) && Slid(s, t, p, c, to)
    requires c.l <= j <= c.r
    ensures KidOK(t, g, p, j) && KidOK(s, g, p, j - to + s.pg[p].l)
    ensures Kid(t, p, j) == Kid(s, p, j - to + s.pg[p].l)
  {
    var k := j - to + s.pg[p].l;
    assert KidOK(s, g, p, k);
    assert IsKid(s, p, Kid(s, p, k));
    KidMoved(s, t, g, p, k, j);
  }

  lemma SlidBody(s: Store, t: Store, g: View, p: int, c: Content, to: int)
    requires NodeAt(s, g, p) && NodeBody(s, g, p) && NodeAt(t, g, p) && AllAt(t, g) && Slid(s, t, p, c, to)
    ensures NodeBody(t, g, p)
  {
    hide IsKid;
    if g.h[p] > 0 {
      forall j | c.l <= j <= c.r
        ensures KidOK(t, g, p, j)
      {
        SlidKid(s, t, g, p, c, to, j);
      }
      forall j | c.l <= j < c.r
        ensures SepOK(t, g, p, j)
      {
        SlidKid(s, t, g, p, c, to, j);
        SlidKid(s, t, g, p, c, to, j + 1);
        assert SepOK(s, g, p, j - to + s.pg[p].l);
      }
      SlidKid(s, t, g, p, c, to, c.l);
      SlidKid(s, t, g, p, c, to, c.r);
    }
  }

  lemma SlidUp(s: Store, t: Store, g: View, root: int, p: int, c: Content, to: int, i: int)
    requires NodeAt(s, g, p) && NodeAt(s, g, i) && NodeAt(t, g, i) && AllAt(t, g) && Slid(s, t, p, c, to)
    requires NodeAt(s, g, root) && s.par[root] == 0 && UpOK(s, g, root, i)
    ensures UpOK(t, g, root, i)
  {
    if i != root && s.par[i] == p {
      assert IsKid(s, p, i);
      var k := s.pp[i] - s.pg[p].l + to;
      assert t.pp[i] == k;
      assert c.slots[k].child == i;
    } else if i != root {
      assert In(g, s.par[i]);
    }
  }

  /** Moving the content of a page inside its buffer keeps the tree. */
  lemma SlidKeepsInv(s: Store, t: Store, g: View, root: int, p: int, c: Content, to: int)
    requires Inv(s, g, root) && In(g, p) && Slid(s, t, p, c, to)
    ensures Inv(t, g, root)
  {
    assert AllAt(t, g);
    forall i | In(g, i)
      ensures NodeBody(t, g, i)
    {
      assert NodeBody(s, g, i);
      if i == p {
        SlidBody(s, t, g, p, c, to);
      } else {
        NodeKept(s, g, t, g, i);
      }
    }
    forall i | In(g, i)
      ensures UpOK(t, g, root, i)
    {
      assert UpOK(s, g, root, i) && UpOK(s, g, root, root);
      SlidUp(s, t, g, root, p, c, to, i);
    }
  }

  // ---------- a new entry and a new child in an inner page ----------

  /** Entry `e` between children `a` and `b` at place `pos`; either the right part moved up (d == 0)
      or the left part moved down (d == -1). */
  ghost predicate ContentInserted(c: Content, n: Content, pos: int, d: int, e: Entry, a: int, b: int)
    requires c.Framed() && n.Framed()
  {
    && c.l <= pos <= c.r && -1 <= d <= 0 && n.l == c.l + d && n.r == c.r + d + 1
    && (forall j {:trigger n.slots[j]} | n.l <= j < pos + d :: n.slots[j] == c.slots[j - d])
    && n.slots[pos + d].child == a && n.slots[pos + d].e == e && n.slots[pos + d + 1].child == b
    && (forall j {:trigger n.slots[j]} | pos + d < j < n.r :: n.slots[j].e == c.slots[j - 1 - d].e)
    && (forall j {:trigger n.slots[j]} | pos + d + 1 < j <= n.r :: n.slots[j].child == c.slots[j - 1 - d].child)
  }

  ghost predicate SlotInserted(s: Store, t: Store, p: int, n: Content, pos: int, d: int, e: Entry, a: int, b: int) {
    && OnlyPage(s, t, p, n) && ContentInserted(s.pg[p], n, pos, d, e, a, b)
    && 0 < a < |s.pp| && 0 < b < |s.pp| && a != b && a != p && b != p
    && t.par == s.par[a := p][b := p] && |t.pp| == |s.pp|
    && t.pp[a] == pos + d && t.pp[b] == pos + d + 1
    && (forall c {:trigger t.pp[c]} | 0 <= c < |s.pp| && c != a && c != b ::
          t.pp[c] == if IsKid(s, p, c) && s.pp[c] < pos then s.pp[c] + d
                     else if IsKid(s, p, c) && pos < s.pp[c] then s.pp[c] + 1 + d
                     else s.pp[c])
  }

  ghost predicate PendingKids(s: Store, g: View, p: int, pos: int, a: int, b: int)
    requires NodeAt(s, g, p)
  {
    forall j {:trigger KidOK(s, g, p, j)} | s.pg[p].l <= j <= s.pg[p].r && j != pos ::
      KidOK(s, g, p, j) && Kid(s, p, j) != a && Kid(s, p, j) != b
  }

  ghost predicate PendingSeps(s: Store, g: View, p: int, pos: int)
    requires NodeAt(s, g, p)
  {
    forall j {:trigger SepOK(s, g, p, j)} | s.pg[p].l <= j < s.pg[p].r && j != pos && j + 1 != pos :: SepOK(s, g, p, j)
  }

  /** The neighbours of the cut node, or the edges of `p` where there is none. */
  ghost predicate PendingEdges(s: Store, g: View, p: int, pos: int, a: int, b: int)
    requires NodeAt(s, g, p) && NodeAt(s, g, a) && NodeAt(s, g, b) && s.pg[p].l <= pos <= s.pg[p].r
  {
    && (pos == s.pg[p].l ==> g.st[a] == g.st[p])
    && (s.pg[p].l < pos ==>
          && KidOK(s, g, p, pos - 1) && Between(g, Kid(s, p, pos - 1), a, s.pg[p].slots[pos - 1].e)
          && KidOK(s, g, p, s.pg[p].l) && g.st[Kid(s, p, s.pg[p].l)] == g.st[p])
    && (pos == s.pg[p].r ==> g.en[b] == g.en[p])
    && (pos < s.pg[p].r ==>
          && KidOK(s, g, p, pos + 1) && Between(g, b, Kid(s, p, pos + 1), s.pg[p].slots[pos].e)
          && KidOK(s, g, p, s.pg[p].r) && g.en[Kid(s, p, s.pg[p].r)] == g.en[p])
  }

  /** Node `a` has been cut in two: `b` holds what follows entry `e`, but `p` does not show it yet. */
  ghost predicate PendingAt(s: Store, g: View, p: int, pos: int, e: Entry, a: int, b: int) {
    && NodeAt(s, g, p) && NodeAt(s, g, a) && NodeAt(s, g, b)
    && p != a && p != b && a != b
    && g.h[a] + 1 == g.h[p] && g.h[b] + 1 == g.h[p]
    && Between(g, a, b, e)
    && s.pg[p].l <= pos <= s.pg[p].r && s.pg[p].Size() < INDEXCOUNT
    && (s.par[a] == p || s.par[a] == 0) && s.par[b] == 0
    && (Kid(s, p, pos) == a || Kid(s, p, pos) == 0)
  }

  ghost predicate Pending(s: Store, g: View, root: int, p: int, pos: int, e: Entry, a: int, b: int) {
    && Domains(s, g, root) && root != a && root != b
    && PendingAt(s, g, p, pos, e, a, b) && PendingKids(s, g, p, pos, a, b) && PendingSeps(s, g, p, pos)
    && PendingEdges(s, g, p, pos, a, b)
    && (forall i {:trigger NodeBody(s, g, i)} | In(g, i) && i != p :: NodeAt(s, g, i) && NodeBody(s, g, i))
    && (forall i {:trigger UpOK(s, g, root, i)} | In(g, i) && i != a && i != b ::
       NodeAt(s, g, i) && UpOK(s, g, root, i))
  }

  /** One publication of a cut: store `s` becomes `t`; page `p` becomes `n`. */
  datatype Insertion = Insertion(
    s: Store, t: Store, g: View, root: int, p: int, n: Content, pos: int, d: int, e: Entry, a: int, b: int) {

    ghost predicate Ready() {
      && PendingAt(s, g, p, pos, e, a, b) && PendingKids(s, g, p, pos, a, b) && NodeAt(t, g, p) && AllAt(t, g)
      && SlotInserted(s, t, p, n, pos, d, e, a, b)
    }

    lemma KidOld(j: int)
      requires Ready()
      requires s.pg[p].l <= j <= s.pg[p].r && j != pos
      ensures KidOK(s, g, p, j)
      ensures var k := if j < pos then j + d else j + 1 + d; KidOK(t, g, p, k) && Kid(t, p, k) == Kid(s, p, j)
    {
      var k := if j < pos then j + d else j + 1 + d;
      assert KidOK(s, g, p, j);
      assert IsKid(s, p, Kid(s, p, j));
      assert n.slots[k].child == s.pg[p].slots[j].child;
      KidMoved(s, t, g, p, j, k);
    }

    lemma KidNew()
      requires Ready()
      ensures KidOK(t, g, p, pos + d) && Kid(t, p, pos + d) == a
      ensures KidOK(t, g, p, pos + d + 1) && Kid(t, p, pos + d + 1) == b
    {
      assert In(g, a) && In(g, b);
    }

    lemma Kids()
      requires Ready()
      ensures KidsOK(t, g, p)
    {
      forall j | n.l <= j <= n.r
        ensures KidOK(t, g, p, j)
      {
        if j < pos + d {
          KidOld(j - d);
        } else if j > pos + d + 1 {
          KidOld(j - 1 - d);
        } else {
          KidNew();
        }
      }
    }

    lemma SepOld(j: int)
      requires Ready()
      requires PendingSeps(s, g, p, pos)
      requires s.pg[p].l <= j < s.pg[p].r && j != pos && j + 1 != pos
      ensures SepOK(t, g, p, if j < pos then j + d else j + 1 + d)
    {
      KidOld(j);
      KidOld(j + 1);
      assert SepOK(s, g, p, j);
    }

    lemma Left()
      requires Ready()
      requires PendingEdges(s, g, p, pos, a, b)
      ensures s.pg[p].l < pos ==> SepOK(t, g, p, pos + d - 1)
      ensures KidOK(t, g, p, n.l) && g.st[Kid(t, p, n.l)] == g.st[p]
    {
      hide LeafOK, IsKid, PendingSeps;
      KidNew();
      if s.pg[p].l < pos {
        KidOld(pos - 1);
        KidOld(s.pg[p].l);
      }
    }

    lemma Right()
      requires Ready()
      requires PendingEdges(s, g, p, pos, a, b)
      ensures pos < s.pg[p].r ==> SepOK(t, g, p, pos + d + 1)
      ensures KidOK(t, g, p, n.r) && g.en[Kid(t, p, n.r)] == g.en[p]
    {
      KidNew();
      if pos < s.pg[p].r {
        KidOld(pos + 1);
        KidOld(s.pg[p].r);
      }
    }

    lemma Sep(j: int)
      requires Ready() && n.l <= j < n.r
      requires PendingSeps(s, g, p, pos)
      requires PendingEdges(s, g, p, pos, a, b)
      ensures SepOK(t, g, p, j)
    {
      hide KidOK, Between, PendingKids, PendingSeps, PendingEdges, IsKid;
      if j + 1 < pos + d {
        SepOld(j - d);
      } else if j > pos + d + 1 {
        SepOld(j - 1 - d);
      } else if j < pos + d {
        Left();
      } else if j > pos + d {
        Right();
      } else {
        KidNew();
      }
    }

    lemma Up(i: int)
      requires Ready()
      requires NodeAt(s, g, i) && NodeAt(t, g, i) && NodeAt(s, g, root) && root != a && root != b && s.par[root] == 0
      requires i != a && i != b ==> UpOK(s, g, root, i)
      ensures UpOK(t, g, root, i)
    {
      if i == a || i == b {
        KidNew();
      } else if i != root && s.par[i] == p {
        KidOld(s.pp[i]);
      } else if i != root {
        assert In(g, s.par[i]);
      }
    }

    lemma Body()
      requires Ready()
      requires PendingSeps(s, g, p, pos) && PendingEdges(s, g, p, pos, a, b)
      ensures NodeBody(t, g, p)
    {
      hide KidOK, SepOK, Between, PendingKids, PendingSeps, PendingEdges, IsKid;
      Kids();
      forall j | n.l <= j < n.r
        ensures SepOK(t, g, p, j)
      {
        Sep(j);
      }
      Left();
      Right();
    }

    lemma Other(i: int)
      requires Ready() && NodeAt(s, g, i) && NodeBody(s, g, i) && i != p && NodeAt(t, g, i)
      ensures NodeBody(t, g, i)
    {
      NodeKept(s, g, t, g, i);
    }

    /** Publishing the cut in the parent completes the tree again; its content is unchanged. */
    lemma KeepsInv()
      requires Pending(s, g, root, p, pos, e, a, b) && SlotInserted(s, t, p, n, pos, d, e, a, b)
      ensures Inv(t, g, root)
    {
      hide KidOK, SepOK, NodeBody, ContentInserted, Between, PendingKids, PendingSeps, PendingEdges, IsKid;
      assert AllAt(t, g);
      forall i | In(g, i)
        ensures NodeBody(t, g, i)
      {
        if i != p {
          assert NodeBody(s, g, i);
          Other(i);
        } else {
          Body();
        }
      }
      assert UpOK(s, g, root, root);
      forall i | In(g, i)
        ensures UpOK(t, g, root, i)
      {
        if i != a && i != b { assert UpOK(s, g, root, i); }
        Up(i);
      }
    }
  }

  // ---------- cutting an overfull node ----------

  /** `n` takes the entries behind the middle one, `c` keeps those before it. */
  ghost predicate ContentSplit(o: Content, c: Content, n: Content)
    requires o.Framed() && c.Framed() && n.Framed()
  {
    && o.l == 0 && o.r == INDEXCOUNT
    && c == o.(r := INDEXMINL) && n.l == 0 && n.r == INDEXMINR
    && (forall j {:trigger n.slots[j]} | 0 <= j < INDEXMINR :: n.slots[j].e == o.slots[j + INDEXMINL + 1].e)
    && (forall j {:trigger n.slots[j]} | 0 <= j <= INDEXMINR :: n.slots[j].child == o.slots[j + INDEXMINL + 1].child)
    && (ChildFree(o) ==> ChildFree(n))
  }

  ghost predicate PlacesSplit(s: Store, t: Store, p: int, b: int) {
    && |t.par| == |s.par| == |s.pp| == |t.pp|
    && (forall c {:trigger t.pp[c]} {:trigger t.par[c]} | 0 <= c < |s.pp| ::
          if IsKid(s, p, c) && s.pp[c] > INDEXMINL
          then t.par[c] == b && t.pp[c] == s.pp[c] - INDEXMINL - 1
          else t.par[c] == s.par[c] && t.pp[c] == s.pp[c])
  }

  ghost predicate Cut(s: Store, t: Store, p: int, b: int, c: Content, n: Content) {
    && 0 < p < |s.pg| && 0 < b < |s.pg| && p != b && s.pg[p].Framed() && c.Framed() && n.Framed()
    && ContentSplit(s.pg[p], c, n) && t.pg == s.pg[p := c][b := n]
    && PlacesSplit(s, t, p, b)
  }

  /** A page that the tree does not use, as alloc() hands it out. */
  ghost predicate Blank(s: Store, g: View, b: int) {
    && 0 < b < |s.pg| == |s.par| == |s.pp| == |g.h| && g.h[b] < 0
    && s.pg[b].Framed() && s.pg[b].l == 0 && s.pg[b].r == 0 && ChildFree(s.pg[b])
    && s.par[b] == 0 && s.pp[b] == 0
  }

  /** The page that will show the cut: the parent, or a blank page that becomes the root. */
  ghost predicate Above(s: Store, g: View, root: int, p: int, q: int, newRoot: int) {
    if p == root then Blank(s, g, q) && newRoot == q
    else 0 <= p < |s.par| && q == s.par[p] && newRoot == root
  }

  /** The position of entry j of page i, without the side conditions of `Rank`. */
  ghost function Position(s: Store, g: View, i: int, j: int): int
    requires 0 <= i < |s.pg| && |g.h| == |s.pg| == |g.st| == |g.en| && 0 <= j < |s.pg[i].slots|
  {
    if g.h[i] == 0 then g.st[i] + j - s.pg[i].l
    else if 0 <= Kid(s, i, j) < |g.en| then g.en[Kid(s, i, j)] else 0
  }

  ghost function CutView(s: Store, g: View, root: int, p: int, q: int, b: int): View
    requires |g.h| == |s.pg| == |g.st| == |g.en| && 0 <= p < |s.pg| && 0 <= q < |s.pg| && 0 <= b < |s.pg|
    requires s.pg[p].Framed()
  {
    var m := Position(s, g, p, INDEXMINL);
    var h, st, en := g.h[b := g.h[p]], g.st[b := m + 1], g.en[b := g.en[p]][p := m];
    if p == root then View(h[q := g.h[p] + 1], st[q := 0], en[q := |g.G|], g.G) else View(h, st, en, g.G)
  }

  /** What a cut needs to know of the tree. */
  ghost predicate CutReady(s: Store, g: View, root: int, p: int, q: int, b: int, newRoot: int) {
    && Lengths(s, g) && In(g, p) && NodeAt(s, g, p) && NodeBody(s, g, p)
    && s.pg[p].l == 0 && s.pg[p].r == INDEXCOUNT
    && Blank(s, g, b) && Above(s, g, root, p, q, newRoot) && 0 < q < |s.pg| && q != b && q != p
    && (p != root ==> NodeAt(s, g, q) && g.h[q] == g.h[p] + 1)
  }

  lemma MiddleAt(s: Store, g: View, p: int)
    requires NodeAt(s, g, p) && NodeBody(s, g, p) && s.pg[p].l == 0 && s.pg[p].r == INDEXCOUNT
    ensures var m := Position(s, g, p, INDEXMINL);
            g.st[p] <= m < g.en[p] && g.G[m] == s.pg[p].slots[INDEXMINL].e
    ensures g.h[p] > 0 ==> SepOK(s, g, p, INDEXMINL) && g.en[Kid(s, p, INDEXMINL)] == Position(s, g, p, INDEXMINL)
  {
    if g.h[p] > 0 {
      assert SepOK(s, g, p, INDEXMINL);
      KidInside(s, g, p, INDEXMINL);
      KidInside(s, g, p, INDEXMINL + 1);
    }
  }

  /** One cut of the overfull node `p`: `b` is the new page, `q` will show it, `v` is the view after it. */
  datatype Cutting = Cutting(
    s: Store, t: Store, g: View, v: View, root: int, p: int, q: int, b: int, newRoot: int, c: Content, n: Content) {

    ghost predicate Ready() {
      CutReady(s, g, root, p, q, b, newRoot) && Cut(s, t, p, b, c, n) && v == CutView(s, g, root, p, q, b)
    }

    ghost predicate Placed() {
      Ready() && AllAt(t, v) && NodeAt(t, v, p) && NodeAt(t, v, b)
    }

    /** Where the children of the cut node are afterwards. */
    lemma KidAfter(j: int)
      requires Placed() && g.h[p] > 0 && 0 <= j <= INDEXCOUNT
      ensures KidOK(s, g, p, j)
      ensures j <= INDEXMINL ==> KidOK(t, v, p, j) && Kid(t, p, j) == Kid(s, p, j)
      ensures j > INDEXMINL ==> KidOK(t, v, b, j - INDEXMINL - 1) && Kid(t, b, j - INDEXMINL - 1) == Kid(s, p, j)
      ensures var k := Kid(s, p, j); v.st[k] == g.st[k] && v.en[k] == g.en[k]
    {
      assert KidOK(s, g, p, j);
      var k := Kid(s, p, j);
      assert IsKid(s, p, k);
      assert k != p && k != b && k != q;
      assert In(v, k);
    }

    lemma Sep(j: int)
      requires Placed()
      requires g.h[p] > 0 && 0 <= j < INDEXCOUNT && j != INDEXMINL
      ensures j < INDEXMINL ==> SepOK(t, v, p, j)
      ensures j > INDEXMINL ==> SepOK(t, v, b, j - INDEXMINL - 1)
    {
      KidAfter(j);
      KidAfter(j + 1);
      assert SepOK(s, g, p, j);
    }

    lemma Leaf()
      requires Placed()
      requires g.h[p] == 0
      ensures NodeBody(t, v, p) && NodeBody(t, v, b)
    {
    }

    lemma Left()
      requires Placed()
      requires g.h[p] > 0
      ensures NodeBody(t, v, p)
    {
      forall j | 0 <= j <= INDEXMINL
        ensures KidOK(t, v, p, j)
      {
        KidAfter(j);
      }
      forall j | 0 <= j < INDEXMINL
        ensures SepOK(t, v, p, j)
      {
        Sep(j);
      }
      MiddleAt(s, g, p);
      KidAfter(0);
      KidAfter(INDEXMINL);
    }

    lemma Right()
      requires Placed()
      requires g.h[p] > 0
      ensures NodeBody(t, v, b)
    {
      forall j | 0 <= j <= INDEXMINR
        ensures KidOK(t, v, b, j)
      {
        KidAfter(j + INDEXMINL + 1);
      }
      forall j | 0 <= j < INDEXMINR
        ensures SepOK(t, v, b, j)
      {
        Sep(j + INDEXMINL + 1);
      }
      MiddleAt(s, g, p);
      assert SepOK(s, g, p, INDEXMINL);
      KidAfter(INDEXMINL + 1);
      KidAfter(INDEXCOUNT);
    }

    /** The neighbours of the cut node in its parent. */
    lemma NeighboursKept()
      requires Placed()
      requires p != root && NodeBody(s, g, q) && UpOK(s, g, root, p) && NodeAt(t, v, q)
      ensures PendingKids(t, v, q, s.pp[p], p, b) && PendingSeps(t, v, q, s.pp[p])
    {
      forall j | s.pg[q].l <= j <= s.pg[q].r && j != s.pp[p]
        ensures KidOK(t, v, q, j) && Kid(t, q, j) != p && Kid(t, q, j) != b
      {
        Neighbour(j);
      }
      forall j | s.pg[q].l <= j < s.pg[q].r && j != s.pp[p] && j + 1 != s.pp[p]
        ensures SepOK(t, v, q, j)
      {
        Neighbour(j);
        Neighbour(j + 1);
        assert SepOK(s, g, q, j);
      }
    }

    lemma Neighbour(j: int)
      requires Placed()
      requires p != root && KidsOK(s, g, q) && UpOK(s, g, root, p) && NodeAt(t, v, q)
      requires s.pg[q].l <= j <= s.pg[q].r && j != s.pp[p]
      ensures KidOK(s, g, q, j) && KidOK(t, v, q, j) && Kid(t, q, j) == Kid(s, q, j) != p && Kid(t, q, j) != b
      ensures var k := Kid(s, q, j); v.st[k] == g.st[k] && v.en[k] == g.en[k]
    {
      assert KidOK(s, g, q, j);
      assert In(v, Kid(s, q, j));
    }

    lemma EdgesKept()
      requires Placed()
      requires p != root && NodeBody(s, g, q) && UpOK(s, g, root, p) && NodeAt(t, v, q)
      ensures PendingEdges(t, v, q, s.pp[p], p, b)
    {
      hide ContentSplit, PlacesSplit;
      var pos := s.pp[p];
      assert KidOK(s, g, q, pos);
      if s.pg[q].l < pos {
        Neighbour(pos - 1);
        Neighbour(s.pg[q].l);
        assert SepOK(s, g, q, pos - 1);
      }
      if pos < s.pg[q].r {
        Neighbour(pos + 1);
        Neighbour(s.pg[q].r);
        assert SepOK(s, g, q, pos);
      }
    }

    lemma At()
      requires Placed()
      requires NodeAt(t, v, q) && Domains(s, g, root) && UpOK(s, g, root, p) && NodeAt(s, g, root)
               && s.par[root] == 0 && s.pp[root] == 0
      requires p != root ==> s.pg[q].Size() < INDEXCOUNT
      ensures PendingAt(t, v, q, s.pp[p], s.pg[p].slots[INDEXMINL].e, p, b)
    {
      MiddleAt(s, g, p);
    }

    lemma Whole()
      requires Ready()
      requires Domains(s, g, root)
      ensures Domains(t, v, newRoot) && AllAt(t, v) && NodeAt(t, v, p) && NodeAt(t, v, b) && NodeAt(t, v, q)
    {
      MiddleAt(s, g, p);
      forall i | In(v, i)
        ensures NodeAt(t, v, i) && v.h[i] <= v.h[newRoot]
      {
        assert i == b || i == q || In(g, i);
      }
      assert In(v, p) && In(v, b) && In(v, q);
    }

    lemma Up(i: int)
      requires Placed()
      requires In(v, i) && i != p && i != b && ((i == q && p == root) || (NodeAt(s, g, i) && UpOK(s, g, root, i)))
      requires NodeAt(s, g, root)
      ensures NodeAt(t, v, i) && UpOK(t, v, newRoot, i)
    {
      if In(g, i) {
        if s.par[i] == p {
          assert IsKid(s, p, i);
          if s.pp[i] > INDEXMINL {
            assert n.slots[s.pp[i] - INDEXMINL - 1].child == i;
          }
        } else if i != root {
          assert In(v, s.par[i]);
        }
      }
    }

    lemma Other(i: int)
      requires Placed()
      requires In(g, i) && i != p && i != q && NodeAt(s, g, i) && NodeBody(s, g, i)
      requires p == root ==> s.par[p] == 0
      ensures NodeAt(t, v, i) && NodeBody(t, v, i)
    {
      assert In(v, i);
      NodeKept(s, g, t, v, i);
    }

    lemma Body(i: int)
      requires Placed() && In(v, i) && i != q && Bodies(s, g)
      requires p == root ==> s.par[p] == 0
      ensures NodeAt(t, v, i) && NodeBody(t, v, i)
    {
      if i == p || i == b {
        if g.h[p] == 0 {
          Leaf();
        } else if i == p {
          Left();
        } else {
          Right();
        }
      } else {
        assert NodeBody(s, g, i);
        Other(i);
      }
    }

    /** Cutting an overfull node leaves its right half to be published; G is unchanged. */
    lemma Pends()
      requires Inv(s, g, root) && In(g, p) && s.pg[p].l == 0 && s.pg[p].r == INDEXCOUNT
      requires SizedBut(s, g, root, p)
      requires Blank(s, g, b) && 0 < q < |s.pg| && Above(s, g, root, p, q, newRoot) && q != b
      requires Cut(s, t, p, b, c, n) && v == CutView(s, g, root, p, q, b)
      ensures Pending(t, v, newRoot, q, s.pp[p], s.pg[p].slots[INDEXMINL].e, p, b)
    {
      hide KidOK, SepOK, NodeBody, PendingAt, ContentSplit, PlacesSplit, Between;
      assert NodeBody(s, g, p) && UpOK(s, g, root, p) && UpOK(s, g, root, root);
      assert Ready();
      Whole();
      At();
      if p != root {
        assert NodeBody(s, g, q);
        NeighboursKept();
        EdgesKept();
      }
      forall i | In(v, i) && i != q
        ensures NodeBody(t, v, i)
      {
        Body(i);
      }
      forall i | In(v, i) && i != p && i != b
        ensures UpOK(t, v, newRoot, i)
      {
        if In(g, i) { assert UpOK(s, g, root, i); }
        Up(i);
      }
    }
  }

  // ---------- moving one entry between neighbours ----------

  /** One more entry at the right end, with the child behind it. */
  ghost predicate ContentPushedRight(c: Content, n: Content, e: Entry, k: int)
    requires c.Framed() && n.Framed()
  {
    && n.l == c.l && n.r == c.r + 1
    && (forall j {:trigger n.slots[j]} | c.l <= j < c.r :: n.slots[j].e == c.slots[j].e)
    && (forall j {:trigger n.slots[j]} | c.l <= j <= c.r :: n.slots[j].child == c.slots[j].child)
    && n.slots[c.r].e == e && n.slots[c.r + 1].child == k
    && (ChildFree(c) && k == 0 ==> ChildFree(n))
  }

  /** One more entry at the left end, with the child before it. */
  ghost predicate ContentPushedLeft(c: Content, n: Content, e: Entry, k: int)
    requires c.Framed() && n.Framed()
  {
    && n.l == c.l - 1 && n.r == c.r
    && (forall j {:trigger n.slots[j]} | c.l <= j < c.r :: n.slots[j].e == c.slots[j].e)
    && (forall j {:trigger n.slots[j]} | c.l <= j <= c.r :: n.slots[j].child == c.slots[j].child)
    && n.slots[n.l].e == e && n.slots[n.l].child == k
    && (ChildFree(c) && k == 0 ==> ChildFree(n))
  }

  ghost predicate EntryReplaced(c: Content, n: Content, pos: int, e: Entry)
    requires c.Framed() && n.Framed()
  {
    && n.l == c.l && n.r == c.r && c.l <= pos < c.r
    && (forall j {:trigger n.slots[j]} | 0 <= j <= INDEXCOUNT :: n.slots[j].child == c.slots[j].child)
    && (forall j {:trigger n.slots[j]} | 0 <= j <= INDEXCOUNT && j != pos :: n.slots[j].e == c.slots[j].e)
    && n.slots[pos].e == e
  }

  /** The neighbours `a` and `b` at places `ph` and `ph + 1` of `q` exchange one entry through the
      separator of `q`; `k` is the child that changes sides, 0 between leaves, and `m` the new
      position of the separator. */
  datatype Rotation = Rotation(
    s: Store, t: Store, g: View, v: View, root: int, q: int, ph: int, a: int, b: int,
    ca: Content, cb: Content, cq: Content, k: int, m: int) {

    /** What changes in the pages. */
    ghost predicate Step() {
      && Lengths(s, g) && 0 < a < |s.pg| && 0 < b < |s.pg| && 0 < q < |s.pg| && a != b && a != q && b != q
      && s.pg[a].Framed() && s.pg[b].Framed() && s.pg[q].Framed()
      && ca.Framed() && cb.Framed() && cq.Framed()
      && t.pg == s.pg[a := ca][b := cb][q := cq]
      && s.pg[q].l <= ph < s.pg[q].r && a == Kid(s, q, ph) && b == Kid(s, q, ph + 1)
      && EntryReplaced(s.pg[q], cq, ph, cq.slots[ph].e)
      && v == g.(en := g.en[a := m], st := g.st[b := m + 1])
      && |t.par| == |s.par| && |t.pp| == |s.pp| && 0 <= k < |s.par|
      && (forall c {:trigger t.pp[c]} {:trigger t.par[c]} | 0 <= c < |s.pp| && c != k ::
            t.par[c] == s.par[c] && t.pp[c] == s.pp[c])
    }

    ghost predicate Ready() {
      && Step()
      && NodeAt(s, g, q) && NodeAt(s, g, a) && NodeAt(s, g, b) && NodeBody(s, g, q) && g.h[q] > 0
      && KidOK(s, g, q, ph) && KidOK(s, g, q, ph + 1)
      && g.st[a] <= m < g.en[b] && g.G[m] == cq.slots[ph].e
      && (k == 0 || In(g, k)) && (s.par[k] == a || s.par[k] == b || k == 0)
      && (t.par[k] == a || t.par[k] == b || k == 0)
    }

    ghost predicate Placed() {
      Ready() && AllAt(t, v) && NodeAt(t, v, a) && NodeAt(t, v, b) && NodeAt(t, v, q)
    }

    lemma Whole()
      requires Ready() && Domains(s, g, root)
      ensures Domains(t, v, root) && Placed()
    {
      forall i | In(v, i)
        ensures NodeAt(t, v, i) && v.h[i] <= v.h[root]
      {
        assert In(g, i);
      }
      assert In(v, a) && In(v, b) && In(v, q) && In(v, root);
    }

    lemma Other(i: int)
      requires Placed() && In(g, i) && i != a && i != b && i != q && NodeAt(s, g, i) && NodeBody(s, g, i)
      ensures NodeAt(t, v, i) && NodeBody(t, v, i)
    {
      assert In(v, i);
      NodeKept(s, g, t, v, i);
    }

    lemma ParentKid(j: int)
      requires Placed() && s.pg[q].l <= j <= s.pg[q].r
      ensures KidOK(s, g, q, j) && KidOK(t, v, q, j) && Kid(t, q, j) == Kid(s, q, j)
      ensures var c := Kid(s, q, j);
              && (j != ph ==> v.en[c] == g.en[c]) && (j != ph + 1 ==> v.st[c] == g.st[c])
      ensures j != ph ==> Kid(s, q, j) != a
      ensures j != ph + 1 ==> Kid(s, q, j) != b
    {
      assert KidOK(s, g, q, j);
      assert In(v, Kid(s, q, j));
    }

    lemma ParentSep(j: int)
      requires Placed() && s.pg[q].l <= j < s.pg[q].r
      ensures SepOK(t, v, q, j)
    {
      ParentKid(j);
      ParentKid(j + 1);
      assert SepOK(s, g, q, j);
    }

    lemma Parent()
      requires Placed()
      ensures NodeBody(t, v, q)
    {
      forall j | cq.l <= j <= cq.r ensures KidOK(t, v, q, j) { ParentKid(j); }
      forall j | cq.l <= j < cq.r ensures SepOK(t, v, q, j) { ParentSep(j); }
      ParentKid(cq.l);
      ParentKid(cq.r);
    }

    /** Pages other than the moved child hang where they hung. */
    lemma Up(i: int)
      requires Placed() && In(g, i) && NodeAt(s, g, i) && UpOK(s, g, root, i) && i != k
      requires NodeAt(s, g, root)
      requires s.par[i] == a ==> s.pp[i] <= ca.r && ca.l <= s.pp[i] && ca.slots[s.pp[i]].child == i
      requires s.par[i] == b ==> cb.l <= s.pp[i] && s.pp[i] <= cb.r && cb.slots[s.pp[i]].child == i
      ensures NodeAt(t, v, i) && UpOK(t, v, root, i)
    {
      assert In(v, i);
      if i != root { assert In(v, s.par[i]); }
    }

    // ----- from the right neighbour to the left one -----

    ghost predicate ToLeftStep() {
      && Step() && s.pg[b].l < s.pg[b].r
      && ContentPushedRight(s.pg[a], ca, s.pg[q].slots[ph].e, k) && cb == s.pg[b].(l := s.pg[b].l + 1)
      && cq.slots[ph].e == s.pg[b].slots[s.pg[b].l].e
      && k == Kid(s, b, s.pg[b].l)
      && (k != 0 ==> t.par[k] == a && t.pp[k] == ca.r)
      && (k == 0 ==> t.par[k] == s.par[k] && t.pp[k] == s.pp[k])
      && m == (if k == 0 then g.en[a] + 1 else g.en[k])
    }

    ghost predicate ToLeft() {
      Ready() && ToLeftStep() && NodeBody(s, g, a) && NodeBody(s, g, b) && (k == 0 <==> g.h[a] == 0)
    }

    lemma ToLeftLeaf()
      requires Placed() && ToLeft() && g.h[a] == 0
      ensures NodeBody(t, v, a) && NodeBody(t, v, b)
    {
      assert SepOK(s, g, q, ph);
      assert ChildFree(s.pg[b]);
    }

    lemma ToLeftKidA(j: int)
      requires Placed() && ToLeft() && g.h[a] > 0 && ca.l <= j <= ca.r
      ensures KidOK(t, v, a, j)
      ensures j < ca.r ==> KidOK(s, g, a, j) && Kid(t, a, j) == Kid(s, a, j)
      ensures j == ca.r ==> Kid(t, a, j) == k
      ensures var c := Kid(t, a, j); v.st[c] == g.st[c] && v.en[c] == g.en[c]
    {
      assert KidOK(s, g, b, s.pg[b].l);
      if j < ca.r {
        assert KidOK(s, g, a, j);
      }
      assert In(v, Kid(t, a, j));
    }

    lemma ToLeftKidB(j: int)
      requires Placed() && ToLeft() && g.h[a] > 0 && cb.l <= j <= cb.r
      ensures KidOK(s, g, b, j) && KidOK(t, v, b, j) && Kid(t, b, j) == Kid(s, b, j)
      ensures var c := Kid(t, b, j); v.st[c] == g.st[c] && v.en[c] == g.en[c]
    {
      assert KidOK(s, g, b, j) && KidOK(s, g, b, s.pg[b].l);
      assert In(v, Kid(t, b, j));
    }

    lemma ToLeftSepA(j: int)
      requires Placed() && ToLeft() && g.h[a] > 0 && ca.l <= j < ca.r
      ensures SepOK(t, v, a, j)
    {
      hide EntryReplaced, LeafOK;
      ToLeftKidA(j);
      ToLeftKidA(j + 1);
      if j + 1 < ca.r {
        assert SepOK(s, g, a, j);
      } else {
        assert SepOK(s, g, q, ph);
      }
    }

    lemma ToLeftA()
      requires Placed() && ToLeft() && g.h[a] > 0
      ensures NodeBody(t, v, a)
    {
      forall j | ca.l <= j <= ca.r ensures KidOK(t, v, a, j) { ToLeftKidA(j); }
      forall j | ca.l <= j < ca.r ensures SepOK(t, v, a, j) { ToLeftSepA(j); }
      ToLeftKidA(ca.l);
      ToLeftKidA(ca.r);
    }

    lemma ToLeftB()
      requires Placed() && ToLeft() && g.h[a] > 0
      ensures NodeBody(t, v, b)
    {
      hide ContentPushedRight, EntryReplaced, IsKid, LeafOK;
      forall j | cb.l <= j <= cb.r ensures KidOK(t, v, b, j) { ToLeftKidB(j); }
      forall j | cb.l <= j < cb.r
        ensures SepOK(t, v, b, j)
      {
        ToLeftKidB(j);
        ToLeftKidB(j + 1);
        assert SepOK(s, g, b, j);
      }
      assert SepOK(s, g, b, s.pg[b].l);
      ToLeftKidB(cb.l);
      ToLeftKidB(cb.r);
    }

    lemma ToLeftUp(i: int)
      requires Placed() && ToLeft() && In(g, i) && NodeAt(s, g, i) && UpOK(s, g, root, i) && NodeAt(s, g, root)
      ensures NodeAt(t, v, i) && UpOK(t, v, root, i)
    {
      if i != k {
        Up(i);
      } else {
        assert g.h[a] > 0;
        ToLeftKidA(ca.r);
      }
    }

    lemma ToLeftReady()
      requires Inv(s, g, root) && In(g, q) && g.h[q] > 0 && ToLeftStep()
      ensures ToLeft()
    {
      hide ContentPushedRight;
      assert NodeBody(s, g, q);
      assert KidOK(s, g, q, ph) && KidOK(s, g, q, ph + 1) && SepOK(s, g, q, ph);
      assert NodeBody(s, g, a) && NodeBody(s, g, b);
      if g.h[a] == 0 {
        assert ChildFree(s.pg[b]);
      } else {
        assert KidOK(s, g, b, s.pg[b].l) && SepOK(s, g, b, s.pg[b].l);
        KidInside(s, g, b, s.pg[b].l);
        KidInside(s, g, b, s.pg[b].l + 1);
      }
    }

    /** Borrowing from the right neighbour keeps the tree and its content. */
    lemma ToLeftKeepsInv()
      requires Inv(s, g, root) && In(g, q) && g.h[q] > 0 && ToLeftStep()
      ensures Inv(t, v, root)
    {
      hide KidOK, SepOK, NodeBody, ContentPushedLeft, ContentPushedRight, EntryReplaced, Between;
      ToLeftReady();
      Whole();
      forall i | In(v, i)
        ensures NodeBody(t, v, i)
      {
        if i == q {
          Parent();
        } else if i != a && i != b {
          assert NodeBody(s, g, i);
          Other(i);
        } else if g.h[a] == 0 {
          ToLeftLeaf();
        } else if i == a {
          ToLeftA();
        } else {
          ToLeftB();
        }
      }
      forall i | In(v, i)
        ensures UpOK(t, v, root, i)
      {
        assert UpOK(s, g, root, i);
        ToLeftUp(i);
      }
    }

    // ----- from the left neighbour to the right one -----

    ghost predicate ToRightStep() {
      && Step() && s.pg[a].l < s.pg[a].r
      && ContentPushedLeft(s.pg[b], cb, s.pg[q].slots[ph].e, k) && ca == s.pg[a].(r := s.pg[a].r - 1)
      && cq.slots[ph].e == s.pg[a].slots[s.pg[a].r - 1].e
      && k == Kid(s, a, s.pg[a].r)
      && (k != 0 ==> t.par[k] == b && t.pp[k] == cb.l)
      && (k == 0 ==> t.par[k] == s.par[k] && t.pp[k] == s.pp[k])
      && m == (if k == 0 then g.en[a] - 1 else g.st[k] - 1)
    }

    ghost predicate ToRight() {
      Ready() && ToRightStep() && NodeBody(s, g, a) && NodeBody(s, g, b) && (k == 0 <==> g.h[a] == 0)
    }

    lemma ToRightLeaf()
      requires Placed() && ToRight() && g.h[a] == 0
      ensures NodeBody(t, v, a) && NodeBody(t, v, b)
    {
      assert SepOK(s, g, q, ph);
      assert ChildFree(s.pg[a]);
    }

    lemma ToRightKidB(j: int)
      requires Placed() && ToRight() && g.h[a] > 0 && cb.l <= j <= cb.r
      ensures KidOK(t, v, b, j)
      ensures j > cb.l ==> KidOK(s, g, b, j) && Kid(t, b, j) == Kid(s, b, j)
      ensures j == cb.l ==> Kid(t, b, j) == k
      ensures var c := Kid(t, b, j); v.st[c] == g.st[c] && v.en[c] == g.en[c]
    {
      assert KidOK(s, g, a, s.pg[a].r);
      if j > cb.l {
        assert KidOK(s, g, b, j);
      }
      assert In(v, Kid(t, b, j));
    }

    lemma ToRightKidA(j: int)
      requires Placed() && ToRight() && g.h[a] > 0 && ca.l <= j <= ca.r
      ensures KidOK(s, g, a, j) && KidOK(t, v, a, j) && Kid(t, a, j) == Kid(s, a, j)
      ensures var c := Kid(t, a, j); v.st[c] == g.st[c] && v.en[c] == g.en[c]
    {
      assert KidOK(s, g, a, j) && KidOK(s, g, a, s.pg[a].r);
      assert In(v, Kid(t, a, j));
    }

    lemma ToRightSepB(j: int)
      requires Placed() && ToRight() && g.h[a] > 0 && cb.l <= j < cb.r
      ensures SepOK(t, v, b, j)
    {
      hide EntryReplaced, LeafOK;
      ToRightKidB(j);
      ToRightKidB(j + 1);
      if j > cb.l {
        assert SepOK(s, g, b, j);
      } else {
        assert SepOK(s, g, q, ph);
      }
    }

    lemma ToRightB()
      requires Placed() && ToRight() && g.h[a] > 0
      ensures NodeBody(t, v, b)
    {
      forall j | cb.l <= j <= cb.r ensures KidOK(t, v, b, j) { ToRightKidB(j); }
      forall j | cb.l <= j < cb.r ensures SepOK(t, v, b, j) { ToRightSepB(j); }
      ToRightKidB(cb.l);
      ToRightKidB(cb.r);
    }

    lemma ToRightA()
      requires Placed() && ToRight() && g.h[a] > 0
      ensures NodeBody(t, v, a)
    {
      hide ContentPushedLeft, EntryReplaced, IsKid, LeafOK;
      forall j | ca.l <= j <= ca.r ensures KidOK(t, v, a, j) { ToRightKidA(j); }
      forall j | ca.l <= j < ca.r
        ensures SepOK(t, v, a, j)
      {
        ToRightKidA(j);
        ToRightKidA(j + 1);
        assert SepOK(s, g, a, j);
      }
      assert SepOK(s, g, a, s.pg[a].r - 1);
      ToRightKidA(ca.l);
      ToRightKidA(ca.r);
    }

    lemma ToRightUp(i: int)
      requires Placed() && ToRight() && In(g, i) && NodeAt(s, g, i) && UpOK(s, g, root, i) && NodeAt(s, g, root)
      ensures NodeAt(t, v, i) && UpOK(t, v, root, i)
    {
      if i != k {
        Up(i);
      } else {
        assert g.h[a] > 0;
        ToRightKidB(cb.l);
      }
    }

    lemma ToRightReady()
      requires Inv(s, g, root) && In(g, q) && g.h[q] > 0 && ToRightStep()
      ensures ToRight()
    {
      hide ContentPushedLeft;
      assert NodeBody(s, g, q);
      assert KidOK(s, g, q, ph) && KidOK(s, g, q, ph + 1) && SepOK(s, g, q, ph);
      assert NodeBody(s, g, a) && NodeBody(s, g, b);
      if g.h[a] == 0 {
        assert ChildFree(s.pg[a]);
      } else {
        assert KidOK(s, g, a, s.pg[a].r) && SepOK(s, g, a, s.pg[a].r - 1);
        KidInside(s, g, a, s.pg[a].r);
        KidInside(s, g, a, s.pg[a].r - 1);
      }
    }

    /** Borrowing from the left neighbour keeps the tree and its content. */
    lemma ToRightKeepsInv()
      requires Inv(s, g, root) && In(g, q) && g.h[q] > 0 && ToRightStep()
      ensures Inv(t, v, root)
    {
      hide KidOK, SepOK, NodeBody, ContentPushedLeft, ContentPushedRight, EntryReplaced, Between;
      ToRightReady();
      Whole();
      forall i | In(v, i)
        ensures NodeBody(t, v, i)
      {
        if i == q {
          Parent();
        } else if i != a && i != b {
          assert NodeBody(s, g, i);
          Other(i);
        } else if g.h[a] == 0 {
          ToRightLeaf();
        } else if i == a {
          ToRightA();
        } else {
          ToRightB();
        }
      }
      forall i | In(v, i)
        ensures UpOK(t, v, root, i)
      {
        assert UpOK(s, g, root, i);
        ToRightUp(i);
      }
    }
  }

  // ---------- joining two neighbours ----------

  /** `n` is `c`, then the separator `e`, then `o`. */
  ghost predicate ContentJoined(c: Content, o: Content, n: Content, e: Entry)
    requires c.Framed() && o.Framed() && n.Framed()
  {
    && n.l == c.l && n.r == c.r + 1 + o.Size()
    && (forall j {:trigger n.slots[j]} | c.l <= j < c.r :: n.slots[j].e == c.slots[j].e)
    && (forall j {:trigger n.slots[j]} | c.l <= j <= c.r :: n.slots[j].child == c.slots[j].child)
    && n.slots[c.r].e == e
    && (forall j {:trigger n.slots[j]} | c.r < j < n.r :: n.slots[j].e == o.slots[j - c.r - 1 + o.l].e)
    && (forall j {:trigger n.slots[j]} | c.r < j <= n.r :: n.slots[j].child == o.slots[j - c.r - 1 + o.l].child)
    && (ChildFree(c) && ChildFree(o) ==> ChildFree(n))
  }

  /** Entry `ph` and the child behind it are gone; either the right part moved down (d == 0) or the
      left part moved up (d == 1). */
  ghost predicate ContentDropped(c: Content, n: Content, ph: int, d: int)
    requires c.Framed() && n.Framed()
  {
    && c.l <= ph < c.r && 0 <= d <= 1 && n.l == c.l + d && n.r == c.r - 1 + d
    && (forall j {:trigger n.slots[j]} | n.l <= j < ph + d :: n.slots[j].e == c.slots[j - d].e)
    && (forall j {:trigger n.slots[j]} | n.l <= j <= ph + d :: n.slots[j].child == c.slots[j - d].child)
    && (forall j {:trigger n.slots[j]} | ph + d <= j < n.r :: n.slots[j].e == c.slots[j + 1 - d].e)
    && (forall j {:trigger n.slots[j]} | ph + d < j <= n.r :: n.slots[j].child == c.slots[j + 1 - d].child)
  }

  /** Node `b` at place `ph + 1` of `q` is joined to its left neighbour `a` and leaves the tree. */
  datatype Merging = Merging(
    s: Store, t: Store, g: View, v: View, root: int, q: int, ph: int, a: int, b: int,
    ca: Content, cq: Content, d: int) {

    /** What changes in the pages. */
    ghost predicate Step() {
      && Lengths(s, g) && 0 < a < |s.pg| && 0 < b < |s.pg| && 0 < q < |s.pg| && a != b && a != q && b != q
      && s.pg[a].Framed() && s.pg[b].Framed() && s.pg[q].Framed() && ca.Framed() && cq.Framed()
      && s.pg[q].l <= ph < s.pg[q].r && a == Kid(s, q, ph) && b == Kid(s, q, ph + 1)
      && t.pg == s.pg[a := ca][q := cq]
      && ContentJoined(s.pg[a], s.pg[b], ca, s.pg[q].slots[ph].e) && ContentDropped(s.pg[q], cq, ph, d)
      && v == g.(h := g.h[b := -1], en := g.en[a := g.en[b]])
      && |t.par| == |s.par| && |t.pp| == |s.pp|
      && (forall c {:trigger t.par[c]} {:trigger t.pp[c]} | 0 <= c < |s.par| ::
            if IsKid(s, b, c) then t.par[c] == a && t.pp[c] == s.pp[c] - s.pg[b].l + s.pg[a].r + 1
            else if IsKid(s, q, c) && c != b then
              t.par[c] == q && t.pp[c] == (if s.pp[c] <= ph then s.pp[c] + d else s.pp[c] - 1 + d)
            else t.par[c] == s.par[c] && t.pp[c] == s.pp[c])
    }

    ghost predicate Ready() {
      && Step()
      && NodeAt(s, g, q) && NodeAt(s, g, a) && NodeAt(s, g, b) && NodeBody(s, g, q) && g.h[q] > 0
      && NodeBody(s, g, a) && NodeBody(s, g, b)
      && SepOK(s, g, q, ph)
    }

    ghost predicate Placed() {
      Ready() && AllAt(t, v) && NodeAt(t, v, a) && NodeAt(t, v, q)
    }

    lemma Whole()
      requires Ready() && Domains(s, g, root) && UpOK(s, g, root, root)
      ensures Domains(t, v, root) && Placed() && root != b
    {
      forall i | In(v, i)
        ensures NodeAt(t, v, i) && v.h[i] <= g.h[root]
      {
        assert In(g, i);
      }
      assert In(v, a) && In(v, q) && In(v, root);
    }

    lemma Other(i: int)
      requires Placed() && In(v, i) && i != a && i != q && NodeAt(s, g, i) && NodeBody(s, g, i)
      ensures NodeAt(t, v, i) && NodeBody(t, v, i)
    {
      NodeKept(s, g, t, v, i);
    }

    /** Old child j of the parent. */
    lemma ParentKid(j: int)
      requires Placed() && s.pg[q].l <= j <= s.pg[q].r && j != ph + 1
      ensures KidOK(s, g, q, j) && Kid(s, q, j) != b
      ensures var k := if j <= ph then j + d else j - 1 + d; KidOK(t, v, q, k) && Kid(t, q, k) == Kid(s, q, j)
      ensures var c := Kid(s, q, j); v.st[c] == g.st[c] && (j != ph ==> v.en[c] == g.en[c])
    {
      assert KidOK(s, g, q, j);
      var c := Kid(s, q, j);
      assert In(v, c);
      assert IsKid(s, q, c);
      assert cq.slots[if j <= ph then j + d else j - 1 + d].child == c;
    }

    /** A separator of the parent before the dropped one. */
    lemma ParentSepLeft(j: int)
      requires Placed() && s.pg[q].l <= j < ph
      ensures SepOK(t, v, q, j + d)
    {
      hide ContentJoined, LeafOK, IsKid;
      assert SepOK(s, g, q, j);
      ParentKid(j);
      ParentKid(j + 1);
      assert cq.slots[j + d].e == s.pg[q].slots[j].e;
    }

    /** A separator of the parent behind the dropped one. */
    lemma ParentSepRight(j: int)
      requires Placed() && ph < j < s.pg[q].r
      ensures SepOK(t, v, q, j - 1 + d)
    {
      hide ContentJoined, LeafOK, IsKid, EdgesOK;
      assert SepOK(s, g, q, j);
      ParentKid(j + 1);
      ParentKid(if j == ph + 1 then ph else j);
      assert cq.slots[j - 1 + d].e == s.pg[q].slots[j].e;
    }

    lemma Parent()
      requires Placed()
      ensures NodeBody(t, v, q)
    {
      hide KidOK, SepOK, ContentJoined, IsKid, LeafOK, Between;
      forall j | cq.l <= j <= cq.r
        ensures KidOK(t, v, q, j)
      {
        ParentKid(if j <= ph + d then j - d else j + 1 - d);
      }
      forall j | cq.l <= j < cq.r
        ensures SepOK(t, v, q, j)
      {
        if j < ph + d { ParentSepLeft(j - d); } else { ParentSepRight(j + 1 - d); }
      }
      ParentEdges();
    }

    lemma ParentEdges()
      requires Placed()
      ensures EdgesOK(t, v, q)
    {
      hide ContentJoined, LeafOK, IsKid;
      ParentKid(s.pg[q].l);
      ParentKid(if s.pg[q].r == ph + 1 then ph else s.pg[q].r);
    }

    lemma Leaf()
      requires Placed() && g.h[a] == 0
      ensures NodeBody(t, v, a)
    {
    }

    lemma KidA(j: int)
      requires Placed() && g.h[a] > 0 && s.pg[a].l <= j <= s.pg[a].r
      ensures KidOK(s, g, a, j) && KidOK(t, v, a, j) && Kid(t, a, j) == Kid(s, a, j)
      ensures var c := Kid(s, a, j); v.st[c] == g.st[c] && v.en[c] == g.en[c]
    {
      assert KidOK(s, g, a, j);
      assert In(v, Kid(s, a, j));
    }

    lemma KidB(j: int)
      requires Placed() && g.h[a] > 0 && s.pg[b].l <= j <= s.pg[b].r
      ensures var k := j - s.pg[b].l + s.pg[a].r + 1;
              KidOK(s, g, b, j) && KidOK(t, v, a, k) && Kid(t, a, k) == Kid(s, b, j)
      ensures var c := Kid(s, b, j); v.st[c] == g.st[c] && v.en[c] == g.en[c]
    {
      assert KidOK(s, g, b, j);
      assert IsKid(s, b, Kid(s, b, j));
      assert In(v, Kid(s, b, j));
    }

    lemma JoinedKid(j: int)
      requires Placed() && g.h[a] > 0 && ca.l <= j <= ca.r
      ensures KidOK(t, v, a, j)
    {
      if j <= s.pg[a].r {
        KidA(j);
      } else {
        KidB(j - s.pg[a].r - 1 + s.pg[b].l);
      }
    }

    lemma JoinedSepA(j: int)
      requires Placed() && g.h[a] > 0 && ca.l <= j < s.pg[a].r
      ensures SepOK(t, v, a, j)
    {
      hide LeafOK, IsKid, ContentDropped;
      KidA(j);
      KidA(j + 1);
      assert SepOK(s, g, a, j);
    }

    lemma JoinedSepB(k: int)
      requires Placed() && g.h[a] > 0 && s.pg[b].l <= k < s.pg[b].r
      ensures SepOK(t, v, a, k - s.pg[b].l + s.pg[a].r + 1)
    {
      hide LeafOK, IsKid, ContentDropped;
      KidB(k);
      KidB(k + 1);
      assert SepOK(s, g, b, k);
    }

    lemma JoinedSep(j: int)
      requires Placed() && g.h[a] > 0 && ca.l <= j < ca.r
      ensures SepOK(t, v, a, j)
    {
      hide LeafOK, IsKid, ContentDropped;
      if j < s.pg[a].r {
        JoinedSepA(j);
      } else if j == s.pg[a].r {
        KidA(j);
        KidB(s.pg[b].l);
      } else {
        JoinedSepB(j - s.pg[a].r - 1 + s.pg[b].l);
      }
    }

    lemma Joined()
      requires Placed() && g.h[a] > 0
      ensures NodeBody(t, v, a)
    {
      forall j | ca.l <= j <= ca.r ensures KidOK(t, v, a, j) { JoinedKid(j); }
      forall j | ca.l <= j < ca.r ensures SepOK(t, v, a, j) { JoinedSep(j); }
      KidA(s.pg[a].l);
      KidB(s.pg[b].r);
    }

    lemma UpFromB(i: int)
      requires Placed() && In(v, i) && NodeAt(s, g, i) && UpOK(s, g, root, i) && i != root && s.par[i] == b
               && NodeAt(t, v, i)
      ensures UpOK(t, v, root, i)
    {
      hide ContentDropped, LeafOK, EdgesOK;
      assert IsKid(s, b, i);
      assert ca.slots[s.pp[i] - s.pg[b].l + s.pg[a].r + 1].child == i;
    }

    lemma Up(i: int)
      requires Placed() && In(v, i) && NodeAt(s, g, i) && UpOK(s, g, root, i) && NodeAt(s, g, root) && s.par[root] == 0
      ensures NodeAt(t, v, i) && UpOK(t, v, root, i)
    {
      hide LeafOK, SepOK, EdgesOK;
      if i != root {
        if s.par[i] == b {
          UpFromB(i);
        } else if s.par[i] == q {
          assert IsKid(s, q, i) && s.pp[i] != ph + 1;
          ParentKid(s.pp[i]);
        } else {
          assert In(v, s.par[i]);
        }
      }
    }

    lemma IsReady()
      requires Inv(s, g, root) && In(g, q) && g.h[q] > 0 && Step()
      ensures Ready()
    {
      assert NodeBody(s, g, q);
      assert SepOK(s, g, q, ph);
      assert NodeBody(s, g, a) && NodeBody(s, g, b);
    }

    /** Joining two neighbours keeps the tree and its content. */
    lemma KeepsInv()
      requires Inv(s, g, root) && In(g, q) && g.h[q] > 0 && Step()
      ensures Inv(t, v, root)
    {
      hide KidOK, SepOK, NodeBody, ContentJoined, ContentDropped, IsKid, Between;
      IsReady();
      assert UpOK(s, g, root, root);
      Whole();
      forall i | In(v, i)
        ensures NodeBody(t, v, i)
      {
        if i == q {
          Parent();
        } else if i != a {
          assert NodeBody(s, g, i);
          Other(i);
        } else if g.h[a] == 0 {
          Leaf();
        } else {
          Joined();
        }
      }
      forall i | In(v, i)
        ensures UpOK(t, v, root, i)
      {
        assert UpOK(s, g, root, i);
        Up(i);
      }
    }
  }

  // ---------- a root without entries ----------

  ghost predicate Collapsed(s: Store, t: Store, g: View, v: View, root: int, a: int) {
    && Lengths(s, g) && 0 < a < |s.pg| && 0 <= root < |s.pg|
    && t.pg == s.pg && t.par == s.par[a := 0] && t.pp == s.pp[a := 0]
    && v == g.(h := g.h[root := -1])
  }

  /** The only child of an empty inner root becomes the root. */
  lemma CollapseKeepsInv(s: Store, t: Store, g: View, v: View, root: int, a: int)
    requires Inv(s, g, root) && g.h[root] > 0 && s.pg[root].Size() == 0 && a == Kid(s, root, s.pg[root].l)
    requires Collapsed(s, t, g, v, root, a)
    ensures Inv(t, v, a)
  {
    assert NodeBody(s, g, root);
    assert UpOK(s, g, root, root);
    assert KidOK(s, g, root, s.pg[root].l);
    forall i | In(v, i)
      ensures NodeAt(t, v, i) && v.h[i] <= v.h[a] && UpOK(t, v, a, i)
    {
      assert In(g, i);
      assert UpOK(s, g, root, i);
      if s.par[i] == root && i != root {
        assert s.pp[i] == s.pg[root].l;
      }
    }
    assert In(v, a);
    forall i | In(v, i)
      ensures NodeBody(t, v, i)
    {
      assert In(g, i);
      assert NodeBody(s, g, i);
      assert UpOK(s, g, root, a);
      NodeKept(s, g, t, v, i);
    }
  }

  // ---------- changing the content: one entry in a leaf ----------

  ghost predicate EntryAdded(c: Content, n: Content, pos: int, d: int, e: Entry)
    requires c.Framed() && n.Framed()
  {
    && c.l <= pos <= c.r && -1 <= d <= 0 && n.l == c.l + d && n.r == c.r + d + 1
    && (forall j {:trigger n.slots[j]} | n.l <= j < pos + d :: n.slots[j].e == c.slots[j - d].e)
    && n.slots[pos + d].e == e
    && (forall j {:trigger n.slots[j]} | pos + d < j < n.r :: n.slots[j].e == c.slots[j - 1 - d].e)
    && (ChildFree(c) ==> ChildFree(n))
  }

  ghost predicate EntryRemoved(c: Content, n: Content, pos: int, d: int)
    requires c.Framed() && n.Framed()
  {
    && c.l <= pos < c.r && 0 <= d <= 1 && n.l == c.l + d && n.r == c.r - 1 + d
    && (forall j {:trigger n.slots[j]} | n.l <= j < pos + d :: n.slots[j].e == c.slots[j - d].e)
    && (forall j {:trigger n.slots[j]} | pos + d <= j < n.r :: n.slots[j].e == c.slots[j + 1 - d].e)
    && (ChildFree(c) ==> ChildFree(n))
  }

  function Shift(x: int, y: int, n: int): int { if x < y then y + n else y }

  /** The intervals after position `x` of G received an entry (`n` 1) or lost one (`n` -1). */
  ghost predicate ViewShifted(g: View, v: View, x: int, n: int) {
    && v.h == g.h && |v.st| == |g.st| && |v.en| == |g.en|
    && (forall i {:trigger v.st[i]} | 0 <= i < |g.st| :: v.st[i] == Shift(x, g.st[i], n))
    && (forall i {:trigger v.en[i]} | 0 <= i < |g.en| :: v.en[i] == Shift(if n > 0 then x - 1 else x, g.en[i], n))
  }

  /** Leaf `p` gains entry `e` at slot `pos`, position `x` of the tree. */
  datatype LeafGrowth = LeafGrowth(
    s: Store, t: Store, g: View, v: View, root: int, p: int, n: Content, pos: int, d: int, e: Entry, x: int) {

    ghost predicate Step() {
      && Lengths(s, g) && 0 < p < |s.pg| && s.pg[p].Framed() && n.Framed()
      && EntryAdded(s.pg[p], n, pos, d, e) && t == s.(pg := s.pg[p := n])
      && x == g.st[p] + pos - s.pg[p].l && 0 <= x <= |g.G|
      && ViewShifted(g, v, x, 1) && v.G == Inserted(g.G, x, e)
    }

    lemma At(i: int)
      requires Step() && NodeAt(s, g, i)
      ensures NodeAt(t, v, i)
    {
    }

    lemma TheLeaf()
      requires Step() && NodeAt(s, g, p) && g.h[p] == 0 && LeafOK(s, g, p)
      ensures NodeAt(t, v, p) && LeafOK(t, v, p)
    {
      At(p);
    }

    lemma OtherLeaf(i: int)
      requires Step() && NodeAt(s, g, i) && LeafOK(s, g, i) && i != p && !(g.st[i] <= x <= g.en[i])
      ensures NodeAt(t, v, i) && LeafOK(t, v, i)
    {
      At(i);
    }

    lemma KidAfter(i: int, j: int)
      requires Step() && KidOK(s, g, i, j) && i != p
      ensures KidOK(t, v, i, j) && Kid(t, i, j) == Kid(s, i, j)
    {
      At(i);
      At(Kid(s, i, j));
    }

    lemma SepAfter(i: int, j: int)
      requires Step() && SepOK(s, g, i, j) && i != p
      ensures SepOK(t, v, i, j)
    {
      KidAfter(i, j);
      KidAfter(i, j + 1);
    }

    lemma Inner(i: int)
      requires Step() && NodeAt(s, g, i) && g.h[i] > 0 && NodeBody(s, g, i) && i != p
      ensures NodeAt(t, v, i) && NodeBody(t, v, i)
    {
      At(i);
      forall j | s.pg[i].l <= j <= s.pg[i].r
        ensures KidOK(t, v, i, j)
      {
        assert KidOK(s, g, i, j);
        KidAfter(i, j);
      }
      forall j | s.pg[i].l <= j < s.pg[i].r
        ensures SepOK(t, v, i, j)
      {
        assert SepOK(s, g, i, j);
        SepAfter(i, j);
      }
      KidAfter(i, s.pg[i].l);
      KidAfter(i, s.pg[i].r);
    }

    lemma Up(i: int)
      requires Step() && NodeAt(s, g, i) && UpOK(s, g, root, i) && NodeAt(s, g, p) && g.h[p] == 0
      ensures NodeAt(t, v, i) && UpOK(t, v, root, i)
    {
      At(i);
      if i != root { At(s.par[i]); }
    }

    /** The leaf entry lands at its position of the tree order; everything else keeps its order. */
    lemma KeepsInv()
      requires Inv(s, g, root) && In(g, p) && g.h[p] == 0 && Step()
      ensures Inv(t, v, root) && |v.G| == |g.G| + 1
    {
      forall i | In(v, i)
        ensures NodeAt(t, v, i) && v.h[i] <= v.h[root]
      {
        assert In(g, i);
        At(i);
      }
      At(root);
      forall i | In(v, i)
        ensures NodeBody(t, v, i)
      {
        assert In(g, i);
        assert NodeBody(s, g, i) && NodeBody(s, g, p);
        if i == p {
          TheLeaf();
        } else if g.h[i] > 0 {
          Inner(i);
        } else {
          if g.st[i] <= x <= g.en[i] { SameGap(s, g, root, i, p, x); }
          OtherLeaf(i);
        }
      }
      forall i | In(v, i)
        ensures UpOK(t, v, root, i)
      {
        assert In(g, i);
        assert UpOK(s, g, root, i);
        Up(i);
      }
    }
  }

  /** Leaf `p` loses the entry at slot `pos`, position `x` of the tree. */
  datatype LeafLoss = LeafLoss(
    s: Store, t: Store, g: View, v: View, root: int, p: int, n: Content, pos: int, d: int, x: int) {

    ghost predicate Step() {
      && Lengths(s, g) && 0 < p < |s.pg| && s.pg[p].Framed() && n.Framed()
      && EntryRemoved(s.pg[p], n, pos, d) && t == s.(pg := s.pg[p := n])
      && x == g.st[p] + pos - s.pg[p].l && 0 <= x < |g.G|
      && ViewShifted(g, v, x, -1) && v.G == Removed(g.G, x)
    }

    lemma At(i: int)
      requires Step() && NodeAt(s, g, i)
      ensures NodeAt(t, v, i)
    {
    }

    lemma TheLeaf()
      requires Step() && NodeAt(s, g, p) && g.h[p] == 0 && LeafOK(s, g, p)
      ensures NodeAt(t, v, p) && LeafOK(t, v, p)
    {
      At(p);
    }

    lemma OtherLeaf(i: int)
      requires Step() && NodeAt(s, g, i) && LeafOK(s, g, i) && i != p && !(g.st[i] <= x <= g.en[i])
      ensures NodeAt(t, v, i) && LeafOK(t, v, i)
    {
      At(i);
    }

    lemma KidAfter(i: int, j: int)
      requires Step() && KidOK(s, g, i, j) && i != p
      ensures KidOK(t, v, i, j) && Kid(t, i, j) == Kid(s, i, j)
    {
      At(i);
      At(Kid(s, i, j));
    }

    lemma SepAfter(i: int, j: int)
      requires Step() && SepOK(s, g, i, j) && i != p && g.en[Kid(s, i, j)] != x
      ensures SepOK(t, v, i, j)
    {
      KidAfter(i, j);
      KidAfter(i, j + 1);
    }

    lemma Inner(i: int)
      requires Step() && Inv(s, g, root) && NodeAt(s, g, i) && g.h[i] > 0 && NodeBody(s, g, i)
      requires In(g, p) && g.h[p] == 0 && NodeBody(s, g, p) && i != p
      ensures NodeAt(t, v, i) && NodeBody(t, v, i)
    {
      At(i);
      forall j | s.pg[i].l <= j <= s.pg[i].r
        ensures KidOK(t, v, i, j)
      {
        assert KidOK(s, g, i, j);
        KidAfter(i, j);
      }
      forall j | s.pg[i].l <= j < s.pg[i].r
        ensures SepOK(t, v, i, j)
      {
        assert SepOK(s, g, i, j);
        if g.en[Kid(s, i, j)] == x { RankUnique(s, g, root, i, j, p, pos); }
        SepAfter(i, j);
      }
      KidAfter(i, s.pg[i].l);
      KidAfter(i, s.pg[i].r);
    }

    lemma Up(i: int)
      requires Step() && NodeAt(s, g, i) && UpOK(s, g, root, i) && NodeAt(s, g, p) && g.h[p] == 0
      ensures NodeAt(t, v, i) && UpOK(t, v, root, i)
    {
      At(i);
      if i != root { At(s.par[i]); }
    }

    /** Exactly the entry at position `x` of the tree order disappears. */
    lemma KeepsInv()
      requires Inv(s, g, root) && In(g, p) && g.h[p] == 0 && Step()
      ensures Inv(t, v, root) && |v.G| == |g.G| - 1
    {
      forall i | In(v, i)
        ensures NodeAt(t, v, i) && v.h[i] <= v.h[root]
      {
        assert In(g, i);
        At(i);
      }
      At(root);
      forall i | In(v, i)
        ensures NodeBody(t, v, i)
      {
        assert In(g, i);
        assert NodeBody(s, g, i) && NodeBody(s, g, p);
        if i == p {
          TheLeaf();
        } else if g.h[i] > 0 {
          Inner(i);
        } else {
          if g.st[i] <= x <= g.en[i] { SameGap(s, g, root, i, p, x); }
          OtherLeaf(i);
        }
      }
      forall i | In(v, i)
        ensures UpOK(t, v, root, i)
      {
        assert In(g, i);
        assert UpOK(s, g, root, i);
        Up(i);
      }
    }
  }

  // ---------- overwriting one entry ----------

  /** Entry `ph` of node `q`, position `x` of the tree, becomes `e`. */
  datatype Overwrite = Overwrite(
    s: Store, t: Store, g: View, v: View, root: int, q: int, ph: int, n: Content, e: Entry, x: int) {

    ghost predicate Step() {
      && Lengths(s, g) && 0 < q < |s.pg| && s.pg[q].Framed() && n.Framed()
      && EntryReplaced(s.pg[q], n, ph, e) && t == s.(pg := s.pg[q := n])
      && (if g.h[q] == 0 then x == g.st[q] + ph - s.pg[q].l
          else 0 <= Kid(s, q, ph) < |g.en| && x == g.en[Kid(s, q, ph)])
      && 0 <= x < |g.G|
      && v == g.(G := g.G[x := e])
    }

    ghost predicate Placed() {
      && Step() && Inv(s, g, root) && In(g, q) && NodeAt(s, g, q) && NodeBody(s, g, q)
      && Rank(s, g, q, ph) == x && AllAt(t, v)
    }

    lemma Sep(i: int, j: int)
      requires Placed() && NodeAt(s, g, i) && g.h[i] > 0 && NodeBody(s, g, i) && s.pg[i].l <= j < s.pg[i].r
      ensures SepOK(t, v, i, j)
    {
      assert SepOK(s, g, i, j);
      assert In(v, i) && In(v, Kid(s, i, j)) && In(v, Kid(s, i, j + 1));
      if !(i == q && j == ph) && Rank(s, g, i, j) == x {
        RankUnique(s, g, root, i, j, q, ph);
      }
    }

    lemma Leaf(i: int)
      requires Placed() && NodeAt(s, g, i) && g.h[i] == 0 && NodeBody(s, g, i)
      ensures NodeAt(t, v, i) && NodeBody(t, v, i)
    {
      assert In(v, i);
      forall j | s.pg[i].l <= j < s.pg[i].r
        ensures v.G[v.st[i] + j - s.pg[i].l] == t.pg[i].slots[j].e
      {
        if Rank(s, g, i, j) == x { RankUnique(s, g, root, i, j, q, ph); }
      }
    }

    lemma Inner(i: int)
      requires Placed() && NodeAt(s, g, i) && g.h[i] > 0 && NodeBody(s, g, i)
      ensures NodeAt(t, v, i) && NodeBody(t, v, i)
    {
      assert In(v, i);
      forall j | s.pg[i].l <= j <= s.pg[i].r
        ensures KidOK(t, v, i, j)
      {
        assert KidOK(s, g, i, j);
        assert In(v, Kid(s, i, j));
      }
      forall j | s.pg[i].l <= j < s.pg[i].r
        ensures SepOK(t, v, i, j)
      {
        Sep(i, j);
      }
    }

    /** Exactly the entry at position `x` of the tree order is replaced. */
    lemma KeepsInv()
      requires Inv(s, g, root) && In(g, q) && Step()
      ensures Inv(t, v, root)
    {
      forall i | In(v, i)
        ensures NodeAt(t, v, i) && v.h[i] <= v.h[root]
      {
        assert In(g, i);
      }
      assert NodeBody(s, g, q);
      forall i | In(v, i)
        ensures NodeBody(t, v, i)
      {
        assert In(g, i);
        assert NodeBody(s, g, i);
        if g.h[i] > 0 { Inner(i); } else { Leaf(i); }
      }
      forall i | In(v, i)
        ensures UpOK(t, v, root, i)
      {
        assert In(g, i);
        assert UpOK(s, g, root, i);
      }
    }
  }

  // ---------- pages outside the tree ----------

  /** The tree pages are as before; further pages may have been added behind them. */
  ghost predicate TreePagesKept(s: Store, g: View, t: Store, v: View) {
    && Lengths(s, g) && Lengths(t, v) && |s.pg| <= |t.pg| && v.G == g.G
    && (forall i {:trigger v.h[i]} | 0 <= i < |t.pg| :: v.h[i] == if i < |s.pg| then g.h[i] else -1)
    && (forall i {:trigger In(g, i)} | In(g, i) ::
          t.pg[i] == s.pg[i] && t.par[i] == s.par[i] && t.pp[i] == s.pp[i] && v.st[i] == g.st[i] && v.en[i] == g.en[i])
  }

  lemma KeptDomains(s: Store, g: View, t: Store, v: View, root: int)
    requires Inv(s, g, root) && TreePagesKept(s, g, t, v)
    ensures Domains(t, v, root) && AllAt(t, v)
  {
    hide Bodies, Ups;
    assert In(g, root);
    forall i | In(v, i)
      ensures In(g, i) && NodeAt(t, v, i) && v.h[i] <= v.h[root]
    {
      assert In(g, i);
    }
  }

  lemma KeptBodies(s: Store, g: View, t: Store, v: View, root: int)
    requires Inv(s, g, root) && TreePagesKept(s, g, t, v) && AllAt(t, v)
    ensures Bodies(t, v)
  {
    hide Ups;
    forall i | In(v, i)
      ensures NodeBody(t, v, i)
    {
      assert In(g, i);
      assert NodeBody(s, g, i);
      NodeKept(s, g, t, v, i);
    }
  }

  lemma KeptUps(s: Store, g: View, t: Store, v: View, root: int)
    requires Inv(s, g, root) && TreePagesKept(s, g, t, v) && AllAt(t, v)
    ensures Ups(t, v, root)
  {
    hide Bodies;
    forall i | In(v, i)
      ensures UpOK(t, v, root, i)
    {
      assert In(g, i);
      assert UpOK(s, g, root, i);
      if i != root { assert In(g, s.par[i]); }
    }
  }

  lemma KeptSizes(s: Store, g: View, t: Store, v: View, root: int, p: int)
    requires TreePagesKept(s, g, t, v) && AllAt(t, v)
    ensures SizedBut(s, g, root, p) ==> SizedBut(t, v, root, p)
    ensures Sized(s, g, root) ==> Sized(t, v, root)
  {
    forall i | In(v, i)
      ensures In(g, i) && (NodeAt(s, g, i) && SizeOK(s, g, root, i) ==> SizeOK(t, v, root, i))
    {
      assert In(g, i) && t.pg[i] == s.pg[i] && v.h[i] == g.h[i];
    }
    hide SizeOK;
  }

  lemma KeptKeepsInv(s: Store, g: View, t: Store, v: View, root: int)
    requires Inv(s, g, root) && TreePagesKept(s, g, t, v)
    ensures Inv(t, v, root)
    ensures forall p :: SizedBut(s, g, root, p) ==> SizedBut(t, v, root, p)
    ensures Sized(s, g, root) ==> Sized(t, v, root)
  {
    KeptDomains(s, g, t, v, root);
    KeptBodies(s, g, t, v, root);
    KeptUps(s, g, t, v, root);
    hide Bodies, Ups, Domains, Sized, SizedBut, TreePagesKept, AllAt;
    forall p
      ensures SizedBut(s, g, root, p) ==> SizedBut(t, v, root, p)
    {
      KeptSizes(s, g, t, v, root, p);
    }
    KeptSizes(s, g, t, v, root, 0);
  }
}
