/** What the pages mean without the ghost view: the content read off slot by slot, the pages that
    can be reached from the root, and one step of a walk. */
module IndexWalk {
  import opened IndexModel
  import opened IndexSteps
  import opened IndexLoops
  import opened IndexFill

  // ---------- an empty tree and its first entry ----------

  lemma FreshTree(s: Store, g: View)
    requires s == Store([ZeroContent(), ZeroContent()], [0, 0], [0, 0]) && g == View([-1, 0], [0, 0], [0, 0], [])
    ensures Inv(s, g, 1) && Sized(s, g, 1) && Lengths(s, g) && forall i {:trigger In(g, i)} :: In(g, i) <==> i == 1
  {
    assert NodeAt(s, g, 1) && LeafOK(s, g, 1);
  }

  /** What insert_init_node() and the caller's entry leave in the empty root. */
  ghost function FirstWritten(s: Store, p: int, e: Entry): Store
    requires 0 <= p < |s.pg| && |s.pg[p].slots| == INDEXCOUNT + 1
  {
    LeafWritten(WithBounds(s, p, INDEXMINR, INDEXMINR + 1), p, INDEXMINR, e)
  }

  lemma OnlyRoot(s: Store, g: View, root: int, i: int)
    requires Inv(s, g, root) && g.h[root] == 0 && In(g, i)
    ensures i == root
  {
    hide NodeBody;
    assert UpOK(s, g, root, i);
  }

  lemma FirstSized(s: Store, g: View, root: int, e: Entry, t: Store, v: View)
    requires Inv(s, g, root) && Sized(s, g, root) && s.pg[root].Size() == 0
    requires t == FirstWritten(s, root, e) && v == View(g.h, g.st, g.en[root := 1], [e])
    ensures g.G == [] && Inv(t, v, root) && Sized(t, v, root) && Lengths(t, v)
    ensures forall i {:trigger In(v, i)} {:trigger In(g, i)} :: In(v, i) <==> In(g, i)
  {
    assert In(g, root);
    assert g.h[root] == 0;
    LeafFacts(s, g, root, root);
    assert UpOK(s, g, root, root);
    forall i | In(v, i)
      ensures i == root
    {
      assert In(g, i);
      OnlyRoot(s, g, root, i);
    }
    FirstLeaf(s, g, root, e, t, v);
  }

  lemma FirstLeaf(s: Store, g: View, root: int, e: Entry, t: Store, v: View)
    requires NodeAt(s, g, root) && ChildFree(s.pg[root]) && g.h[root] == 0
    requires t == FirstWritten(s, root, e) && v == View(g.h, g.st, g.en[root := 1], [e])
    requires g.st[root] == 0
    ensures NodeAt(t, v, root) && NodeBody(t, v, root) && t.pg[root].Size() == 1
    ensures t.par == s.par && t.pp == s.pp
  {
  }

  // ---------- one step of a walk ----------

  /** Behind everything below a child comes the entry behind it in the parent, or what is behind the parent. */
  lemma UpRank(s: Store, g: View, root: int, c: int)
    requires Inv(s, g, root) && In(g, c) && c != root
    ensures var q, k := s.par[c], s.pp[c];
            && NodeAt(s, g, q) && g.h[q] == g.h[c] + 1 && s.pg[q].l <= k <= s.pg[q].r && Lengths(s, g) && 0 < q < |s.pg|
            && (if k < s.pg[q].r then Position(s, g, q, k) == g.en[c] < |g.G| else g.en[q] == g.en[c])
  {
    ParentOf(s, g, root, c);
    var q, k := s.par[c], s.pp[c];
    assert NodeBody(s, g, q);
    if k < s.pg[q].r { PositionAt(s, g, root, q, k); }
  }

  lemma RootEnds(s: Store, g: View, root: int)
    requires Inv(s, g, root)
    ensures In(g, root) && Lengths(s, g) && g.st[root] == 0 && g.en[root] == |g.G| && 0 < root < |s.pg|
  {
  }

  /** What follows slot pos of page p: the subtree behind it, the next slot, or what is behind the page. */
  lemma NextRank(s: Store, g: View, root: int, p: int, pos: int)
    requires Inv(s, g, root) && In(g, p) && s.pg[p].l <= pos < s.pg[p].r
    ensures NodeAt(s, g, p) && Lengths(s, g) && 0 < p < |s.pg|
    ensures s.pg[p].slots[pos + 1].child == 0 <==> g.h[p] == 0
    ensures g.h[p] == 0 && pos + 1 < s.pg[p].r ==> Position(s, g, p, pos + 1) == Position(s, g, p, pos) + 1 < |g.G|
    ensures g.h[p] == 0 && pos + 1 == s.pg[p].r ==> g.en[p] == Position(s, g, p, pos) + 1
    ensures g.h[p] > 0 ==> var c := Kid(s, p, pos + 1);
            In(g, c) && c != root && 0 < c < |s.pg| && g.st[c] == Position(s, g, p, pos) + 1
  {
    LeafOrInner(s, g, root, p);
    PositionAt(s, g, root, p, pos);
    if g.h[p] > 0 {
      ChildNotRoot(s, g, root, p, pos + 1);
    } else {
      assert NodeBody(s, g, p);
    }
  }

  lemma NonEmpty(s: Store, g: View, root: int, c: int)
    requires Inv(s, g, root) && Sized(s, g, root) && In(g, c) && c != root
    ensures NodeAt(s, g, c) && g.st[c] < g.en[c] <= |g.G|
  {
    hide NodeBody, UpOK;
    assert SizeOK(s, g, root, c);
    RankAt(s, g, root, c, s.pg[c].l);
  }

  /** The first slot of a leaf. */
  lemma FirstOfLeaf(s: Store, g: View, root: int, q: int)
    requires Inv(s, g, root) && In(g, q) && g.h[q] == 0 && Sized(s, g, root)
    ensures NodeAt(s, g, q) && Lengths(s, g) && 0 < q < |s.pg| && Position(s, g, q, s.pg[q].l) == g.st[q]
    ensures g.en[q] - g.st[q] == s.pg[q].Size() && (q != root ==> s.pg[q].l < s.pg[q].r)
  {
    LeafFacts(s, g, root, q);
    hide NodeBody, UpOK;
    assert q != root ==> SizeOK(s, g, root, q);
  }

  // ---------- searching ----------

  /** The positions in front of slot j of node p: all smaller positions belong to what stands before it. */
  ghost function LowGap(s: Store, g: View, p: int, j: int): int
    requires 0 <= p < |s.pg| && Lengths(s, g) && 0 <= j < |s.pg[p].slots|
  {
    if g.h[p] == 0 then g.st[p] + j - s.pg[p].l
    else if 0 <= Kid(s, p, j) < |g.st| then g.st[Kid(s, p, j)] else 0
  }

  ghost function HighGap(s: Store, g: View, p: int, j: int): int
    requires 0 <= p < |s.pg| && Lengths(s, g) && 0 <= j < |s.pg[p].slots|
  {
    Position(s, g, p, j)
  }

  /** A slot lies between its own gap and the next one. */
  lemma GapAt(s: Store, g: View, root: int, p: int, j: int)
    requires Inv(s, g, root) && In(g, p) && s.pg[p].l <= j < s.pg[p].r
    ensures NodeAt(s, g, p) && Lengths(s, g)
    ensures var x := Position(s, g, p, j);
            0 <= x < |g.G| && g.G[x] == s.pg[p].slots[j].e && LowGap(s, g, p, j + 1) == x + 1
            && HighGap(s, g, p, j) == x
  {
    PositionAt(s, g, root, p, j);
  }

  lemma GapEnds(s: Store, g: View, root: int, p: int)
    requires Inv(s, g, root) && In(g, p)
    ensures NodeAt(s, g, p) && Lengths(s, g) && 0 < p < |s.pg|
    ensures LowGap(s, g, p, s.pg[p].l) == g.st[p] && HighGap(s, g, p, s.pg[p].r) == g.en[p]
  {
    assert NodeBody(s, g, p);
  }

  /** A gap of a leaf is one position, a gap of an inner node is a child. */
  lemma GapInside(s: Store, g: View, root: int, p: int, j: int)
    requires Inv(s, g, root) && In(g, p) && s.pg[p].l <= j <= s.pg[p].r
    ensures NodeAt(s, g, p) && Lengths(s, g) && 0 < p < |s.pg|
    ensures s.pg[p].slots[j].child == 0 <==> g.h[p] == 0
    ensures g.h[p] == 0 ==> LowGap(s, g, p, j) == HighGap(s, g, p, j) == g.st[p] + j - s.pg[p].l
    ensures g.h[p] > 0 ==> var c := s.pg[p].slots[j].child;
              In(g, c) && c < |s.pg| && g.h[c] == g.h[p] - 1 && c != root && LowGap(s, g, p, j) == g.st[c]
                  && HighGap(s, g, p, j) == g.en[c]
  {
    LeafOrInner(s, g, root, p);
    if g.h[p] > 0 { ChildNotRoot(s, g, root, p, j); }
  }

  lemma NonRootFull(s: Store, g: View, root: int, c: int)
    requires Inv(s, g, root) && Sized(s, g, root) && In(g, c) && c != root
    ensures NodeAt(s, g, c) && s.pg[c].l < s.pg[c].r && 0 < c < |s.pg|
  {
    hide NodeBody, UpOK;
    assert SizeOK(s, g, root, c);
  }

  /** The tree is empty exactly if its root is. */
  lemma RootSize(s: Store, g: View, root: int)
    requires Inv(s, g, root) && Sized(s, g, root)
    ensures In(g, root) && Lengths(s, g) && 0 < root < |s.pg| && s.pg[root].Framed() && g.st[root] == 0
            && g.en[root] == |g.G|
    ensures s.pg[root].Size() == 0 <==> |g.G| == 0
  {
    assert SizeOK(s, g, root, root);
    if g.h[root] == 0 {
      LeafFacts(s, g, root, root);
    } else {
      RankAt(s, g, root, root, s.pg[root].l);
    }
  }

  // ---------- reading the tree off the pages ----------

  function EntriesOf(c: Content, j: int): (r: seq<Entry>)
    requires |c.slots| == INDEXCOUNT + 1 && 0 <= j && c.r <= INDEXCOUNT
    decreases c.r - j
  {
    if j < c.r then [c.slots[j].e] + EntriesOf(c, j + 1) else []
  }

  /** The entries of the subtree under page i, n levels high, in order. */
  function Flat(s: Store, i: nat, n: nat): seq<Entry>
    decreases n, INDEXCOUNT + 2
  {
    if i >= |s.pg| || |s.pg[i].slots| != INDEXCOUNT + 1 || s.pg[i].l < 0 || INDEXCOUNT < s.pg[i].r then []
    else if n == 0 then EntriesOf(s.pg[i], s.pg[i].l)
    else Spine(s, i, s.pg[i].l, n)
  }

  /** The same from child j on. */
  function Spine(s: Store, i: nat, j: int, n: nat): seq<Entry>
    requires i < |s.pg| && |s.pg[i].slots| == INDEXCOUNT + 1 && 0 <= j && s.pg[i].r <= INDEXCOUNT && n > 0
    decreases n, INDEXCOUNT + 1 - j
  {
    if j > INDEXCOUNT then []
    else
      Flat(s, s.pg[i].slots[j].child, n - 1)
      + if j < s.pg[i].r then [s.pg[i].slots[j].e] + Spine(s, i, j + 1, n) else []
  }

  lemma {:induction false} EntriesAre(s: Store, g: View, i: int, j: int)
    requires NodeAt(s, g, i) && g.h[i] == 0 && LeafOK(s, g, i) && s.pg[i].l <= j <= s.pg[i].r
    ensures EntriesOf(s.pg[i], j) == g.G[g.st[i] + j - s.pg[i].l..g.en[i]]
    decreases s.pg[i].r - j
  {
    if j < s.pg[i].r {
      EntriesAre(s, g, i, j + 1);
      assert g.G[g.st[i] + j - s.pg[i].l] == s.pg[i].slots[j].e;
    }
  }

  lemma {:induction false} FlatIs(s: Store, g: View, root: int, i: nat)
    requires Inv(s, g, root) && In(g, i)
    ensures NodeAt(s, g, i) && Flat(s, i, g.h[i]) == g.G[g.st[i]..g.en[i]]
    decreases g.h[i], INDEXCOUNT + 2
  {
    hide SepsOK, SepOK;
    assert NodeBody(s, g, i);
    if g.h[i] == 0 {
      EntriesAre(s, g, i, s.pg[i].l);
    } else {
      SpineIs(s, g, root, i, s.pg[i].l);
    }
  }

  lemma {:induction false} SpineIs(s: Store, g: View, root: int, i: nat, j: int)
    requires Inv(s, g, root) && In(g, i) && g.h[i] > 0 && s.pg[i].l <= j <= s.pg[i].r
    ensures NodeAt(s, g, i) && KidOK(s, g, i, j) && g.st[Kid(s, i, j)] <= g.en[i]
    ensures Spine(s, i, j, g.h[i]) == g.G[g.st[Kid(s, i, j)]..g.en[i]]
    decreases g.h[i], INDEXCOUNT + 1 - j
  {
    assert NodeBody(s, g, i);
    assert KidOK(s, g, i, j);
    var c := Kid(s, i, j);
    FlatIs(s, g, root, c);
    if j < s.pg[i].r {
      SpineIs(s, g, root, i, j + 1);
      assert SepOK(s, g, i, j);
      Glue(g.G, g.st[c], g.en[c], g.en[i]);
    }
  }

  lemma Glue(G: seq<Entry>, a: int, m: int, b: int)
    requires 0 <= a <= m < b <= |G|
    ensures G[a..b] == G[a..m] + ([G[m]] + G[m + 1..b])
  {
  }

  /** The pages under page i, n levels deep, as the child fields name them. */
  ghost function Below(s: Store, i: nat, n: nat): set<nat>
    decreases n, INDEXCOUNT + 2
  {
    if i >= |s.pg| || |s.pg[i].slots| != INDEXCOUNT + 1 || s.pg[i].l < 0 || INDEXCOUNT < s.pg[i].r then {}
    else if n == 0 then {i}
    else {i} + BelowFrom(s, i, s.pg[i].l, n)
  }

  ghost function BelowFrom(s: Store, i: nat, j: int, n: nat): set<nat>
    requires i < |s.pg| && |s.pg[i].slots| == INDEXCOUNT + 1 && 0 <= j && s.pg[i].r <= INDEXCOUNT && n > 0
    decreases n, INDEXCOUNT + 1 - j
  {
    if j > s.pg[i].r then {} else Below(s, s.pg[i].slots[j].child, n - 1) + BelowFrom(s, i, j + 1, n)
  }

  lemma {:induction false} BelowKid(s: Store, i: nat, j: int, k: int, n: nat)
    requires i < |s.pg| && |s.pg[i].slots| == INDEXCOUNT + 1 && 0 <= j <= k <= s.pg[i].r <= INDEXCOUNT && n > 0
    ensures Below(s, s.pg[i].slots[k].child, n - 1) <= BelowFrom(s, i, j, n)
    decreases k - j
  {
    hide Below;
    if j < k { BelowKid(s, i, j + 1, k, n); }
  }

  /** A page of the tree is found below each of its ancestors, up to the root. */
  lemma {:induction false} Reached(s: Store, g: View, root: int, i: nat, a: nat)
    requires Inv(s, g, root) && In(g, i) && In(g, a) && i in Below(s, a, g.h[a])
    ensures In(g, root) && i in Below(s, root, g.h[root])
    decreases g.h[root] - g.h[a]
  {
    hide Below, BelowFrom, NodeBody;
    ParentOf(s, g, root, a);
    if a != root {
      var q := s.par[a];
      BelowKid(s, q, s.pg[q].l, s.pp[a], g.h[q]);
      BelowIs(s, q, g.h[q]);
      Reached(s, g, root, i, q);
    }
  }

  lemma BelowIs(s: Store, i: nat, n: nat)
    requires i < |s.pg| && s.pg[i].Framed()
    ensures i in Below(s, i, n) && (n > 0 ==> BelowFrom(s, i, s.pg[i].l, n) <= Below(s, i, n))
  {
    hide BelowFrom;
  }

  lemma {:induction false} BelowInside(s: Store, g: View, root: int, i: nat)
    requires Inv(s, g, root) && In(g, i)
    ensures forall k | k in Below(s, i, g.h[i]) :: In(g, k)
    decreases g.h[i], INDEXCOUNT + 2
  {
    assert NodeBody(s, g, i);
    if g.h[i] > 0 { BelowFromInside(s, g, root, i, s.pg[i].l); }
  }

  lemma {:induction false} BelowFromInside(s: Store, g: View, root: int, i: nat, j: int)
    requires Inv(s, g, root) && In(g, i) && g.h[i] > 0 && s.pg[i].l <= j
    ensures NodeAt(s, g, i) && forall k | k in BelowFrom(s, i, j, g.h[i]) :: In(g, k)
    decreases g.h[i], INDEXCOUNT + 1 - j
  {
    if j <= s.pg[i].r {
      assert NodeBody(s, g, i);
      assert KidOK(s, g, i, j);
      BelowInside(s, g, root, Kid(s, i, j));
      BelowFromInside(s, g, root, i, j + 1);
    }
  }

  /** The invariant makes the pages one tree: the root's content read off slot by slot is G, and the
      pages reached from the root are exactly those of the view. */
  lemma TreeMeaning(s: Store, g: View, root: nat)
    requires Inv(s, g, root)
    ensures In(g, root) && Flat(s, root, g.h[root]) == g.G
    ensures forall i: nat :: i in Below(s, root, g.h[root]) <==> In(g, i)
  {
    hide Flat, Below, NodeBody, UpOK;
    FlatIs(s, g, root, root);
    BelowInside(s, g, root, root);
    forall i: nat | In(g, i)
      ensures i in Below(s, root, g.h[root])
    {
      BelowIs(s, i, g.h[i]);
      Reached(s, g, root, i, i);
    }
  }
}
