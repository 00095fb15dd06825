/** The values behind the index pages of `znet/common/db.h`: what a page holds, when a set of
    pages is a well-formed B-tree, and why every page-level step of the tree keeps it one.

    A page is a buffer of INDEXCOUNT + 1 slots, of which only `l .. r` are in use; slot k carries
    one entry and the child to its left, and the child field of slot `r` is the right-most child.
    The order of the whole tree is the ghost sequence `View.G`.  Every node owns an interval
    `st .. en` of positions in it, and all conditions of the invariant are local: they relate a
    node only to its own children and its own parent.  Split, borrow and merge never change G. */
module IndexModel {
  import opened Keys

  // Constants of a 4096-byte page: 4088 usable bytes, 16 bytes a slot, the last slot is the header.
  const INDEXCOUNT := 254
  const INDEXMINL := 127
  const INDEXMINR := 126
  const INDEXSLIPR := 65
  const INDEXSLIPL := 64

  /** The key part of a slot: up to five inline bytes (`keyLen` 0 says that the key is longer)
      and the place of the record that holds the full key and the value. */
  datatype Entry = Entry(key: seq<byte>, keyLen: nat, page: nat, pos: nat)

  datatype Slot = Slot(child: nat, e: Entry)

  /** The part of a page that holds entries: the slots and the bounds of the used ones. */
  datatype Content = Content(slots: seq<Slot>, l: int, r: int) {
    ghost predicate Framed() {
      |slots| == INDEXCOUNT + 1 && 0 <= l <= r <= INDEXCOUNT
    }
    function Size(): int { r - l }
  }

  /** All pages by number: content, and the parent_index and parent_pos of their headers. */
  datatype Store = Store(pg: seq<Content>, par: seq<int>, pp: seq<int>)

  /** h: height above the leaves, -1 for a page outside the tree; st, en: the interval of a node;
      G: all entries in order. */
  datatype View = View(h: seq<int>, st: seq<int>, en: seq<int>, G: seq<Entry>)

  // ---------- the invariant ----------

  ghost predicate In(g: View, i: int) {
    0 < i < |g.h| && g.h[i] >= 0
  }

  ghost predicate Lengths(s: Store, g: View) {
    |s.pg| == |s.par| == |s.pp| == |g.h| == |g.st| == |g.en|
  }

  ghost predicate NodeAt(s: Store, g: View, i: int) {
    && Lengths(s, g) && In(g, i)
    && s.pg[i].Framed()
    && 0 <= g.st[i] <= g.en[i] <= |g.G|
  }

  function Kid(s: Store, i: int, j: int): int
    requires 0 <= i < |s.pg| && 0 <= j < |s.pg[i].slots|
  {
    s.pg[i].slots[j].child
  }

  /** Child j of node i: one level down, and it knows where it hangs. */
  ghost predicate KidOK(s: Store, g: View, i: int, j: int) {
    && NodeAt(s, g, i) && 0 <= j <= INDEXCOUNT
    && var c := Kid(s, i, j);
       NodeAt(s, g, c) && g.h[c] + 1 == g.h[i] && s.par[c] == i && s.pp[c] == j
  }

  /** Entry e separates the nodes a and b. */
  ghost predicate Between(g: View, a: int, b: int, e: Entry)
    requires 0 <= a < |g.en| && 0 <= b < |g.st|
  {
    g.st[b] == g.en[a] + 1 && 0 <= g.en[a] < |g.G| && g.G[g.en[a]] == e
  }

  /** Entry j of an inner node sits between children j and j + 1. */
  ghost predicate SepOK(s: Store, g: View, i: int, j: int) {
    && KidOK(s, g, i, j) && KidOK(s, g, i, j + 1)
    && Between(g, Kid(s, i, j), Kid(s, i, j + 1), s.pg[i].slots[j].e)
  }

  ghost predicate ChildFree(c: Content) {
    forall j | 0 <= j < |c.slots| :: c.slots[j].child == 0
  }

  ghost predicate LeafOK(s: Store, g: View, i: int)
    requires NodeAt(s, g, i)
  {
    var p := s.pg[i];
    && g.en[i] - g.st[i] == p.r - p.l
    && ChildFree(p)
    && (forall j | p.l <= j < p.r :: g.G[g.st[i] + j - p.l] == p.slots[j].e)
  }

  ghost predicate KidsOK(s: Store, g: View, i: int)
    requires NodeAt(s, g, i)
  {
    forall j {:trigger KidOK(s, g, i, j)} | s.pg[i].l <= j <= s.pg[i].r :: KidOK(s, g, i, j)
  }

  ghost predicate SepsOK(s: Store, g: View, i: int)
    requires NodeAt(s, g, i)
  {
    forall j {:trigger SepOK(s, g, i, j)} | s.pg[i].l <= j < s.pg[i].r :: SepOK(s, g, i, j)
  }

  /** The outermost children reach exactly as far as the node. */
  ghost predicate EdgesOK(s: Store, g: View, i: int)
    requires NodeAt(s, g, i)
  {
    && KidOK(s, g, i, s.pg[i].l) && g.st[Kid(s, i, s.pg[i].l)] == g.st[i]
    && KidOK(s, g, i, s.pg[i].r) && g.en[Kid(s, i, s.pg[i].r)] == g.en[i]
  }

  ghost predicate NodeBody(s: Store, g: View, i: int)
    requires NodeAt(s, g, i)
  {
    if g.h[i] == 0 then LeafOK(s, g, i) else KidsOK(s, g, i) && SepsOK(s, g, i) && EdgesOK(s, g, i)
  }

  /** Page i is what its parent's slot says, or the root. */
  ghost predicate UpOK(s: Store, g: View, root: int, i: int)
    requires NodeAt(s, g, i)
  {
    if i == root then s.par[i] == 0 && s.pp[i] == 0
    else
      var q := s.par[i];
      && NodeAt(s, g, q) && g.h[q] == g.h[i] + 1
      && s.pg[q].l <= s.pp[i] <= s.pg[q].r && Kid(s, q, s.pp[i]) == i
  }

  ghost predicate Domains(s: Store, g: View, root: int) {
    && NodeAt(s, g, root) && g.st[root] == 0 && g.en[root] == |g.G|
    && (forall i {:trigger In(g, i)} | In(g, i) :: NodeAt(s, g, i) && g.h[i] <= g.h[root])
  }

  ghost predicate Bodies(s: Store, g: View) {
    forall i {:trigger NodeBody(s, g, i)} | In(g, i) :: NodeAt(s, g, i) && NodeBody(s, g, i)
  }

  ghost predicate Ups(s: Store, g: View, root: int) {
    forall i {:trigger UpOK(s, g, root, i)} | In(g, i) :: NodeAt(s, g, i) && UpOK(s, g, root, i)
  }

  /** The pages of `s` listed in `g` form one B-tree under `root` whose in-order content is g.G. */
  ghost predicate Inv(s: Store, g: View, root: int) {
    Domains(s, g, root) && Bodies(s, g) && Ups(s, g, root)
  }

  /** The fill of one node: below INDEXCOUNT, at least INDEXMINR except at the root, and an inner
      root holds an entry. */
  ghost predicate SizeOK(s: Store, g: View, root: int, i: int)
    requires NodeAt(s, g, i)
  {
    && s.pg[i].Size() <= INDEXCOUNT - 1
    && (i != root ==> INDEXMINR <= s.pg[i].Size())
    && (i == root && g.h[i] > 0 ==> 1 <= s.pg[i].Size())
  }

  ghost predicate SizedBut(s: Store, g: View, root: int, p: int) {
    forall i {:trigger In(g, i)} | In(g, i) && i != p :: NodeAt(s, g, i) && SizeOK(s, g, root, i)
  }

  ghost predicate Sized(s: Store, g: View, root: int) {
    forall i {:trigger In(g, i)} | In(g, i) :: NodeAt(s, g, i) && SizeOK(s, g, root, i)
  }

  /** The position in G of entry j of node i. */
  ghost function Rank(s: Store, g: View, i: int, j: int): int
    requires NodeAt(s, g, i) && s.pg[i].l <= j < s.pg[i].r
    requires NodeBody(s, g, i)
  {
    if g.h[i] == 0 then g.st[i] + j - s.pg[i].l else assert KidOK(s, g, i, j); g.en[Kid(s, i, j)]
  }

  lemma RankAt(s: Store, g: View, root: int, i: int, j: int)
    requires Inv(s, g, root) && In(g, i) && s.pg[i].l <= j < s.pg[i].r
    ensures NodeBody(s, g, i)
    ensures g.st[i] <= Rank(s, g, i, j) < g.en[i]
    ensures g.G[Rank(s, g, i, j)] == s.pg[i].slots[j].e
  {
    assert NodeBody(s, g, i);
    if g.h[i] > 0 {
      assert SepOK(s, g, i, j);
      KidInside(s, g, i, j);
      KidInside(s, g, i, j + 1);
    }
  }

  // ---------- intervals nest and never overlap ----------

  /** Children of one node occupy increasing intervals, at least one separator apart. */
  lemma {:induction false} KidsApart(s: Store, g: View, i: int, j: int, k: int)
    requires NodeAt(s, g, i) && KidsOK(s, g, i) && SepsOK(s, g, i)
    requires s.pg[i].l <= j < k <= s.pg[i].r
    ensures KidOK(s, g, i, j) && KidOK(s, g, i, k)
    ensures g.en[Kid(s, i, j)] < g.st[Kid(s, i, k)]
    decreases k - j
  {
    assert KidOK(s, g, i, j) && KidOK(s, g, i, k);
    assert SepOK(s, g, i, k - 1);
    if j < k - 1 {
      KidsApart(s, g, i, j, k - 1);
    }
  }

  lemma KidInside(s: Store, g: View, i: int, j: int)
    requires NodeAt(s, g, i) && g.h[i] > 0 && NodeBody(s, g, i) && s.pg[i].l <= j <= s.pg[i].r
    ensures KidOK(s, g, i, j)
    ensures g.st[i] <= g.st[Kid(s, i, j)] && g.en[Kid(s, i, j)] <= g.en[i]
  {
    assert KidOK(s, g, i, j);
    if s.pg[i].l < j { KidsApart(s, g, i, s.pg[i].l, j); }
    if j < s.pg[i].r { KidsApart(s, g, i, j, s.pg[i].r); }
  }

  /** Two nodes of one level that contain the same gap are the same node. */
  lemma {:induction false} SameGap(s: Store, g: View, root: int, a: int, b: int, x: int)
    requires Inv(s, g, root) && In(g, a) && In(g, b) && g.h[a] == g.h[b]
    requires g.st[a] <= x <= g.en[a] && g.st[b] <= x <= g.en[b]
    ensures a == b
    decreases g.h[root] - g.h[a]
  {
    assert UpOK(s, g, root, a) && UpOK(s, g, root, b);
    if a != root && b != root {
      var p, q := s.par[a], s.par[b];
      var j, k := s.pp[a], s.pp[b];
      assert NodeBody(s, g, p) && NodeBody(s, g, q);
      KidInside(s, g, p, j);
      KidInside(s, g, q, k);
      SameGap(s, g, root, p, q, x);
      if j < k { KidsApart(s, g, p, j, k); }
      if k < j { KidsApart(s, g, p, k, j); }
    } else if a != b {
      assert false;
    }
  }

  /** The ancestor of `a` at height `n`; its interval covers that of `a`. */
  lemma {:induction false} Ancestor(s: Store, g: View, root: int, a: int, n: int) returns (b: int)
    requires Inv(s, g, root) && In(g, a) && g.h[a] <= n <= g.h[root]
    ensures In(g, b) && g.h[b] == n && g.st[b] <= g.st[a] && g.en[a] <= g.en[b]
    decreases n - g.h[a]
  {
    if g.h[a] == n {
      b := a;
    } else {
      assert UpOK(s, g, root, a);
      assert NodeBody(s, g, s.par[a]);
      KidInside(s, g, s.par[a], s.pp[a]);
      b := Ancestor(s, g, root, s.par[a], n);
    }
  }

  /** No two slots of the tree share a rank. */
  lemma RankUnique(s: Store, g: View, root: int, i: int, j: int, a: int, b: int)
    requires Inv(s, g, root)
    requires In(g, i) && s.pg[i].l <= j < s.pg[i].r && In(g, a) && s.pg[a].l <= b < s.pg[a].r
    requires NodeBody(s, g, i) && NodeBody(s, g, a)
    requires Rank(s, g, i, j) == Rank(s, g, a, b)
    ensures i == a && j == b
  {
    if g.h[i] <= g.h[a] {
      RankUniqueUp(s, g, root, i, j, a, b);
    } else {
      RankUniqueUp(s, g, root, a, b, i, j);
    }
  }

  lemma RankUniqueUp(s: Store, g: View, root: int, i: int, j: int, a: int, b: int)
    requires Inv(s, g, root)
    requires In(g, i) && s.pg[i].l <= j < s.pg[i].r && In(g, a) && s.pg[a].l <= b < s.pg[a].r
    requires NodeBody(s, g, i) && NodeBody(s, g, a)
    requires Rank(s, g, i, j) == Rank(s, g, a, b) && g.h[i] <= g.h[a]
    ensures i == a && j == b
  {
    var x := Rank(s, g, i, j);
    RankAt(s, g, root, i, j);
    RankAt(s, g, root, a, b);
    if g.h[i] == g.h[a] {
      SameGap(s, g, root, i, a, x);
      if g.h[a] > 0 {
        if j < b { KidsApart(s, g, i, j, b); } else if b < j { KidsApart(s, g, i, b, j); }
      }
    } else {
      assert KidOK(s, g, a, b);
      var c := Kid(s, a, b);
      var q := Ancestor(s, g, root, i, g.h[c]);
      SameGap(s, g, root, c, q, x);
      assert false;
    }
  }
}
