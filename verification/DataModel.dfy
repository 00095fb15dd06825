/** The data pages of `znet/common/db.h`: slices that tile a page, bucket lists of free slices,
    and chains of used slices that carry one record each.  The fields of the slice headers are kept
    as one map per field; a header that was merged away keeps its stale fields. */
module DataModel {
  import opened Keys

  const HEADER := 12          // sizeof(data_hdr)
  const PAGEEND := 4088       // PAGEUSED
  const PAGEMAXSPARE := 4076
  const PAGEMINSPARE := 20
  const FRAGMIN := 8
  const BUCKETS := 511        // PAGEUSED / FRAGMIN

  /** The place of a slice header; page 0 stands for none. */
  datatype Ref = Ref(page: nat, pos: nat)

  const NONE := Ref(0, 0)

  // ---------- the slices tile their pages ----------

  function Following(next: map<Ref, nat>, r: Ref): Ref
    requires r in next
  {
    Ref(r.page, next[r])
  }

  function Capacity(next: map<Ref, nat>, r: Ref): int
    requires r in next
  {
    next[r] - r.pos - HEADER
  }

  ghost predicate TileOK(next: map<Ref, nat>, hd: set<Ref>, pages: set<nat>, r: Ref) {
    && r in next && r.page in pages && r.page > 0 && r.pos % 16 == 0 && r.pos + 16 <= next[r] <= PAGEEND
    && (next[r] < PAGEEND ==> Following(next, r) in hd)
  }

  /** The slice of r ends before q begins, if q is behind r. */
  ghost predicate Clear(next: map<Ref, nat>, r: Ref, q: Ref) {
    r.page == q.page && r.pos < q.pos ==> r in next && next[r] <= q.pos
  }

  /** The headers `hd` cut every page of `pages` into slices without gap or overlap. */
  ghost predicate Tiled(next: map<Ref, nat>, hd: set<Ref>, pages: set<nat>) {
    && (forall r {:trigger TileOK(next, hd, pages, r)} | r in hd :: TileOK(next, hd, pages, r))
    && (forall p | p in pages :: Ref(p, 0) in hd)
    && (forall r, q {:trigger Clear(next, r, q)} | r in hd && q in hd :: Clear(next, r, q))
  }

  /** The slice behind r is absorbed by r. */
  lemma MergeTiles(next: map<Ref, nat>, hd: set<Ref>, pages: set<nat>, r: Ref, n: map<Ref, nat>)
    requires Tiled(next, hd, pages) && r in hd && r in next && next[r] < PAGEEND
    requires Following(next, r) in next && n == next[r := next[Following(next, r)]]
    ensures Tiled(n, hd - {Following(next, r)}, pages) && Following(next, r) in hd && Following(next, r) != r
    ensures n[r] > next[r]
  {
    var q := Following(next, r);
    assert TileOK(next, hd, pages, r);
    assert TileOK(next, hd, pages, q);
    forall x | x in hd - {q}
      ensures TileOK(n, hd - {q}, pages, x)
    {
      assert TileOK(next, hd, pages, x);
      assert Clear(next, x, r) && Clear(next, r, x);
    }
    forall x, y | x in hd - {q} && y in hd - {q}
      ensures Clear(n, x, y)
    {
      assert Clear(next, x, y);
      assert Clear(next, q, y);
      assert Clear(next, r, y);
    }
  }

  /** A new header appears inside the slice of r. */
  lemma SplitTiles(next: map<Ref, nat>, hd: set<Ref>, pages: set<nat>, r: Ref, at: nat, n: map<Ref, nat>)
    requires Tiled(next, hd, pages) && r in hd && r in next && at % 16 == 0 && r.pos + 16 <= at && at + 16 <= next[r]
    requires n == next[Ref(r.page, at) := next[r]][r := at]
    ensures Tiled(n, hd + {Ref(r.page, at)}, pages) && Ref(r.page, at) !in hd
  {
    var q := Ref(r.page, at);
    assert TileOK(next, hd, pages, r);
    forall x | x in hd ensures x != q { assert Clear(next, r, x); }
    forall x | x in hd + {q}
      ensures TileOK(n, hd + {q}, pages, x)
    {
      if x != q { assert TileOK(next, hd, pages, x); }
    }
    forall x, y | x in hd + {q} && y in hd + {q}
      ensures Clear(n, x, y)
    {
      if x != q && y != q {
        assert Clear(next, x, y);
      } else if y != q {
        assert Clear(next, r, y);
      } else if x != q {
        assert Clear(next, x, r);
        assert Clear(next, r, x);
      }
    }
  }

  /** A page of its own is one slice. */
  lemma NewTile(next: map<Ref, nat>, hd: set<Ref>, pages: set<nat>, p: nat, n: map<Ref, nat>)
    requires Tiled(next, hd, pages) && p !in pages && p > 0 && n == next[Ref(p, 0) := PAGEEND]
    ensures Tiled(n, hd + {Ref(p, 0)}, pages + {p}) && Ref(p, 0) !in hd
    ensures forall x | x in hd :: x.page != p
  {
    var q := Ref(p, 0);
    forall x | x in hd ensures x.page != p { assert TileOK(next, hd, pages, x); }
    forall x | x in hd + {q}
      ensures TileOK(n, hd + {q}, pages + {p}, x)
    {
      if x != q { assert TileOK(next, hd, pages, x); }
    }
    forall x, y | x in hd + {q} && y in hd + {q}
      ensures Clear(n, x, y)
    {
      if x != q && y != q { assert Clear(next, x, y); }
    }
  }

  /** A page that is one slice is given up. */
  lemma DropTile(next: map<Ref, nat>, hd: set<Ref>, pages: set<nat>, r: Ref)
    requires Tiled(next, hd, pages) && r in hd && r in next && Capacity(next, r) == PAGEMAXSPARE
    ensures r.pos == 0 && r.page in pages && Tiled(next, hd - {r}, pages - {r.page})
  {
    assert TileOK(next, hd, pages, r);
    forall x | x in hd - {r}
      ensures TileOK(next, hd - {r}, pages - {r.page}, x)
    {
      assert TileOK(next, hd, pages, x);
      assert Clear(next, r, x);
    }
    forall x, y | x in hd - {r} && y in hd - {r} ensures Clear(next, x, y) {}
  }

  /** The slice r reaches over place o of its page. */
  ghost predicate Holds(next: map<Ref, nat>, r: Ref, o: nat) {
    r in next && r.pos <= o < next[r]
  }

  /** Every place of a data page belongs to some slice ... */
  lemma {:induction false} SomeSlice(next: map<Ref, nat>, hd: set<Ref>, pages: set<nat>, r: Ref, o: nat)
    requires Tiled(next, hd, pages) && r in hd && r.pos <= o < PAGEEND
    ensures exists q :: q in hd && q.page == r.page && Holds(next, q, o)
    decreases PAGEEND - r.pos
  {
    assert TileOK(next, hd, pages, r);
    if next[r] <= o {
      SomeSlice(next, hd, pages, Following(next, r), o);
    } else {
      assert Holds(next, r, o);
    }
  }

  /** ... and to no more than one. */
  lemma OneSlice(next: map<Ref, nat>, hd: set<Ref>, pages: set<nat>, p: nat, o: nat)
    requires Tiled(next, hd, pages) && p in pages && o < PAGEEND
    ensures exists q :: q in hd && q.page == p && Holds(next, q, o)
    ensures forall a, b | a in hd && b in hd && a.page == b.page == p && Holds(next, a, o) && Holds(next, b, o) ::
            a == b
  {
    SomeSlice(next, hd, pages, Ref(p, 0), o);
    forall a, b | a in hd && b in hd && a.page == b.page == p && Holds(next, a, o) && Holds(next, b, o)
      ensures a == b
    {
      assert Clear(next, a, b) && Clear(next, b, a);
    }
  }

  // ---------- the bucket lists of free slices ----------

  function Bucket(next: map<Ref, nat>, r: Ref): int
    requires r in next
  {
    Capacity(next, r) / FRAGMIN
  }

  /** The fields of the list structure: link and prev of the free slices, the list heads, and a
      ghost rank that falls along each list. */
  datatype Lists = Lists(link: map<Ref, Ref>, prev: map<Ref, Ref>, head: seq<Ref>, ord: map<Ref, int>)

  /** a is directly followed by b in a bucket list. */
  ghost predicate Adjacent(next: map<Ref, nat>, l: Lists, a: Ref, b: Ref) {
    && a in next && b in next && a in l.link && b in l.prev && a in l.ord && b in l.ord
    && l.link[a] == b && l.prev[b] == a && l.ord[b] < l.ord[a] && Bucket(next, a) == Bucket(next, b)
  }

  /** On a bucket list of slices with room for n bytes, whichever they are. */
  ghost predicate Serves(next: map<Ref, nat>, q: Ref, n: nat) {
    q in next && n <= Bucket(next, q) * FRAGMIN
  }

  ghost predicate FragOK(next: map<Ref, nat>, l: Lists, fr: set<Ref>, r: Ref) {
    && r in next && r in l.link && r in l.prev && r in l.ord && r.page > 0 && |l.head| == BUCKETS
    && 0 <= Bucket(next, r) < BUCKETS && Capacity(next, r) < PAGEMAXSPARE
    && (if l.link[r].page > 0 then l.link[r] in fr && Adjacent(next, l, r, l.link[r]) else l.link[r] == NONE)
    && (if l.prev[r].page > 0 then l.prev[r] in fr && Adjacent(next, l, l.prev[r], r) else l.head[Bucket(next, r)] == r)
  }

  ghost predicate HeadOK(next: map<Ref, nat>, l: Lists, fr: set<Ref>, i: int) {
    && 0 <= i < |l.head|
    && (if l.head[i].page > 0
        then l.head[i] in fr && l.head[i] in next && l.head[i] in l.prev && Bucket(next, l.head[i]) == i
            && l.prev[l.head[i]].page == 0
        else l.head[i] == NONE)
  }

  /** The slices in `fr` are doubly linked in the list of their bucket. */
  ghost predicate Listed(next: map<Ref, nat>, l: Lists, fr: set<Ref>) {
    && |l.head| == BUCKETS
    && (forall r {:trigger FragOK(next, l, fr, r)} | r in fr :: FragOK(next, l, fr, r))
    && (forall i {:trigger HeadOK(next, l, fr, i)} | 0 <= i < BUCKETS :: HeadOK(next, l, fr, i))
  }

  /** What clr_fragment() writes. */
  ghost predicate Unlinked(next: map<Ref, nat>, l: Lists, m: Lists, r: Ref) {
    && r in next && r in l.link && r in l.prev && |l.head| == |m.head| == BUCKETS && m.ord == l.ord
    && 0 <= Bucket(next, r) < BUCKETS
    && var a, b := l.prev[r], l.link[r];
       && m.link == (if a.page > 0 then l.link[a := if b.page > 0 then b else NONE] else l.link)
       && m.prev == (if b.page > 0 then l.prev[b := if a.page > 0 then a else NONE] else l.prev)
       && m.head == (if a.page > 0 then l.head else l.head[Bucket(next, r) := if b.page > 0 then b else NONE])
  }

  lemma UnlinkedListed(next: map<Ref, nat>, l: Lists, m: Lists, fr: set<Ref>, r: Ref)
    requires Listed(next, l, fr) && r in fr && Unlinked(next, l, m, r)
    ensures Listed(next, m, fr - {r})
  {
    assert FragOK(next, l, fr, r);
    var a, b := l.prev[r], l.link[r];
    forall x | x in fr - {r}
      ensures FragOK(next, m, fr - {r}, x)
    {
      assert FragOK(next, l, fr, x);
      if a.page > 0 { assert FragOK(next, l, fr, a); }
      if b.page > 0 { assert FragOK(next, l, fr, b); }
    }
    forall i | 0 <= i < BUCKETS
      ensures HeadOK(next, m, fr - {r}, i)
    {
      assert HeadOK(next, l, fr, i);
      if b.page > 0 { assert FragOK(next, l, fr, b); }
      if l.head[i].page > 0 { assert FragOK(next, l, fr, l.head[i]); }
    }
  }

  /** What set_fragment() writes: r becomes the first of its list. */
  ghost predicate Linked(next: map<Ref, nat>, l: Lists, m: Lists, r: Ref) {
    && r in next && |l.head| == |m.head| == BUCKETS && 0 <= Bucket(next, r) < BUCKETS
    && var b := l.head[Bucket(next, r)];
       && (b.page > 0 ==> b in l.ord)
       && m.link == l.link[r := b]
       && m.prev == (if b.page > 0 then l.prev[b := r] else l.prev)[r := NONE]
       && m.head == l.head[Bucket(next, r) := r]
       && m.ord == l.ord[r := if b.page > 0 then l.ord[b] + 1 else 0]
  }

  lemma LinkedListed(next: map<Ref, nat>, l: Lists, m: Lists, fr: set<Ref>, r: Ref)
    requires Listed(next, l, fr) && r !in fr && r.page > 0 && Linked(next, l, m, r)
    requires Capacity(next, r) < PAGEMAXSPARE
    ensures Listed(next, m, fr + {r})
  {
    var k := Bucket(next, r);
    var b := l.head[k];
    assert HeadOK(next, l, fr, k);
    if b.page > 0 { assert FragOK(next, l, fr, b); }
    forall x | x in fr + {r}
      ensures FragOK(next, m, fr + {r}, x)
    {
      if x != r { assert FragOK(next, l, fr, x); }
    }
    forall i | 0 <= i < BUCKETS
      ensures HeadOK(next, m, fr + {r}, i)
    {
      assert HeadOK(next, l, fr, i);
    }
  }

  /** The lists do not depend on the tiles of slices that are not listed. */
  lemma ListedFrame(next: map<Ref, nat>, n: map<Ref, nat>, l: Lists, m: Lists, fr: set<Ref>)
    requires Listed(next, l, fr)
    requires forall r | r in fr && r in next :: r in n && n[r] == next[r]
    requires l.head == m.head && l.ord == m.ord && l.prev == m.prev
    requires forall r | r in fr && r in l.link :: r in m.link && m.link[r] == l.link[r]
    ensures Listed(n, m, fr)
  {
    forall x | x in fr
      ensures FragOK(n, m, fr, x)
    {
      assert FragOK(next, l, fr, x);
      if l.prev[x].page > 0 { assert FragOK(next, l, fr, l.prev[x]); }
    }
    forall i | 0 <= i < BUCKETS
      ensures HeadOK(n, m, fr, i)
    {
      assert HeadOK(next, l, fr, i);
    }
  }

  /** The slice n links behind r. */
  ghost function Nth(link: map<Ref, Ref>, r: Ref, n: nat): Ref {
    if n == 0 then r else var q := Nth(link, r, n - 1); if q.page > 0 && q in link then link[q] else NONE
  }

  ghost predicate OnListOf(l: Lists, i: int, r: Ref, n: nat) {
    0 <= i < |l.head| && Nth(l.link, l.head[i], n) == r
  }

  /** A list holds nothing but the free slices of its bucket. */
  lemma {:induction false} ListOnly(next: map<Ref, nat>, l: Lists, fr: set<Ref>, i: int, n: nat)
    requires Listed(next, l, fr) && 0 <= i < BUCKETS
    ensures var q := Nth(l.link, l.head[i], n); q == NONE || (q in fr && q in next && Bucket(next, q) == i)
  {
    assert HeadOK(next, l, fr, i);
    if n > 0 {
      ListOnly(next, l, fr, i, n - 1);
      var q := Nth(l.link, l.head[i], n - 1);
      if q in fr { assert FragOK(next, l, fr, q); }
    }
  }

  /** On an empty list is no slice. */
  lemma NoneListed(next: map<Ref, nat>, l: Lists, fr: set<Ref>, i: int)
    requires Listed(next, l, fr) && 0 <= i < BUCKETS && l.head[i].page == 0
    ensures forall r | r in fr :: r in next && Bucket(next, r) != i
  {
    assert HeadOK(next, l, fr, i);
    forall r | r in fr
      ensures r in next && Bucket(next, r) != i
    {
      assert FragOK(next, l, fr, r);
      OnItsList(next, l, fr, r, set q | q in fr && q in l.ord && l.ord[r] < l.ord[q]);
      if Bucket(next, r) == i {
        var n: nat :| OnListOf(l, i, r, n);
        NothingBehind(l.link, n);
      }
    }
  }

  lemma {:induction false} NothingBehind(link: map<Ref, Ref>, n: nat)
    ensures Nth(link, NONE, n) == NONE
  {
    if n > 0 { NothingBehind(link, n - 1); }
  }

  /** Every free slice is found on the list of its bucket. */
  lemma {:induction false} OnItsList(next: map<Ref, nat>, l: Lists, fr: set<Ref>, r: Ref, higher: set<Ref>)
    requires Listed(next, l, fr) && r in fr
    requires forall q :: q in higher <==> q in fr && q in l.ord && r in l.ord && l.ord[r] < l.ord[q]
    ensures r in next && exists n: nat :: OnListOf(l, Bucket(next, r), r, n)
    decreases higher
  {
    assert FragOK(next, l, fr, r);
    var p := l.prev[r];
    if p.page > 0 {
      var above := set q | q in higher && l.ord[p] < l.ord[q];
      assert p in higher && p !in above;
      OnItsList(next, l, fr, p, above);
      var n: nat :| OnListOf(l, Bucket(next, p), p, n);
      assert OnListOf(l, Bucket(next, r), r, n + 1);
    } else {
      assert OnListOf(l, Bucket(next, r), r, 0);
    }
  }

  // ---------- which slices are free ----------

  /** size 0 marks exactly the listed slices; those in `x` are in transit. */
  ghost predicate Marked(size: map<Ref, nat>, hd: set<Ref>, fr: set<Ref>, x: set<Ref>) {
    forall r | r in hd && r !in x :: r in size && (size[r] == 0 <==> r in fr)
  }

  /** No two adjacent slices are free. */
  ghost predicate Apart(next: map<Ref, nat>, fr: set<Ref>) {
    forall r | r in fr :: r in next && Following(next, r) !in fr
  }

  lemma ApartFrame(next: map<Ref, nat>, n: map<Ref, nat>, fr: set<Ref>)
    requires Apart(next, fr) && forall r | r in fr && r in next :: r in n && n[r] == next[r]
    ensures Apart(n, fr)
  {
    forall r | r in fr
      ensures r in n && Following(n, r) !in fr
    {
      assert Following(n, r) == Following(next, r);
    }
  }

  lemma ApartPlus(next: map<Ref, nat>, fr: set<Ref>, c: Ref)
    requires Apart(next, fr) && c in next && Following(next, c) !in fr && Following(next, c) != c
    requires forall r | r in fr :: r in next && Following(next, r) != c
    ensures Apart(next, fr + {c})
  {
  }

  /** A header has at most one predecessor, and none stands at the end of a page. */
  lemma OnePredecessor(next: map<Ref, nat>, hd: set<Ref>, pages: set<nat>, x: Ref, y: Ref)
    requires Tiled(next, hd, pages) && x in hd && y in hd && x in next && y in next
    requires Following(next, x) == Following(next, y)
    ensures x == y
  {
    assert TileOK(next, hd, pages, x) && TileOK(next, hd, pages, y);
    assert Clear(next, x, y) && Clear(next, y, x);
  }

  lemma TileFacts(next: map<Ref, nat>, hd: set<Ref>, pages: set<nat>, r: Ref)
    requires Tiled(next, hd, pages) && r in hd
    ensures r in next && r.page in pages && r.page > 0 && r.pos % 16 == 0 && r.pos + 16 <= next[r] <= PAGEEND
    ensures next[r] < PAGEEND ==>
            Following(next, r) in hd && Following(next, r) in next && next[r] < next[Following(next, r)]
    ensures next[r] == PAGEEND ==> Following(next, r) !in hd
    ensures Ref(r.page, 0) in hd && Following(next, r) != r
  {
    assert TileOK(next, hd, pages, r);
    var q := Following(next, r);
    if next[r] < PAGEEND {
      assert TileOK(next, hd, pages, q);
    } else {
      forall x | x in hd ensures x != q { assert TileOK(next, hd, pages, x); }
    }
  }

  // ---------- records ----------

  /** The record a slice belongs to and its place in it. */
  datatype Owner = Owner(h: Ref, k: int)

  /** Chain h consists of used slices, each of which belongs to it alone, linked one after the other. */
  ghost predicate ChainOK(link: map<Ref, Ref>, ch: map<Ref, seq<Ref>>, own: map<Ref, Owner>, us: set<Ref>,
      open: set<Ref>, h: Ref)
  {
    && h in ch && 0 < |ch[h]| && ch[h][0] == h
    && (forall k {:trigger ch[h][k]} | 0 <= k < |ch[h]| ::
       ch[h][k] in us && ch[h][k] in own && own[ch[h][k]] == Owner(h, k))
    && (forall k {:trigger ch[h][k]} | 0 <= k < |ch[h]| - 1 :: ch[h][k] in link && link[ch[h][k]] == ch[h][k + 1])
    && (h !in open ==> ch[h][|ch[h]| - 1] in link && link[ch[h][|ch[h]| - 1]] == NONE)
  }

  ghost predicate Owned(ch: map<Ref, seq<Ref>>, own: map<Ref, Owner>, r: Ref) {
    r in own && own[r].h in ch && 0 <= own[r].k < |ch[own[r].h]| && ch[own[r].h][own[r].k] == r
  }

  /** Every used slice belongs to exactly one chain; the chains in `open` have no end mark yet. */
  ghost predicate Chained(link: map<Ref, Ref>, ch: map<Ref, seq<Ref>>, own: map<Ref, Owner>, us: set<Ref>,
      open: set<Ref>)
  {
    && (forall h {:trigger ChainOK(link, ch, own, us, open, h)} | h in ch :: ChainOK(link, ch, own, us, open, h))
    && (forall r {:trigger Owned(ch, own, r)} | r in us :: Owned(ch, own, r))
  }

  ghost predicate FilledAt(next: map<Ref, nat>, size: map<Ref, nat>, body: map<Ref, seq<byte>>, r: Ref) {
    r in next && r in size && r in body && 0 < size[r] == |body[r]| && Fits(next, r, size[r])
  }

  /** Slice r has room for n bytes, and not so much more that a free slice could be split off. */
  ghost predicate Fits(next: map<Ref, nat>, r: Ref, n: nat) {
    r in next && n <= Capacity(next, r) < PAGEMINSPARE + n + HEADER
  }

  /** Used slices hold `size` bytes; the one in `x` is still being written. */
  ghost predicate Filled(next: map<Ref, nat>, size: map<Ref, nat>, body: map<Ref, seq<byte>>, us: set<Ref>,
      x: set<Ref>)
  {
    forall r {:trigger FilledAt(next, size, body, r)} | r in us && r !in x :: FilledAt(next, size, body, r)
  }

  lemma FilledFrame(next: map<Ref, nat>, size: map<Ref, nat>, body: map<Ref, seq<byte>>, us: set<Ref>, x: set<Ref>,
      n: map<Ref, nat>, s: map<Ref, nat>)
    requires Filled(next, size, body, us, x)
    requires forall r | r in us - x && r in next && r in size :: r in n && n[r] == next[r] && r in s && s[r] == size[r]
    ensures Filled(n, s, body, us, x)
  {
    forall r | r in us && r !in x
      ensures FilledAt(n, s, body, r)
    {
      assert FilledAt(next, size, body, r);
    }
  }

  /** A slice that holds as much as it says is no exception. */
  lemma FilledUp(next: map<Ref, nat>, size: map<Ref, nat>, body: map<Ref, seq<byte>>, us: set<Ref>, r: Ref)
    requires Filled(next, size, body, us, {r}) && FilledAt(next, size, body, r)
    ensures Filled(next, size, body, us, {})
  {
    forall q | q in us ensures FilledAt(next, size, body, q) {}
  }

  lemma FilledWithout(next: map<Ref, nat>, size: map<Ref, nat>, body: map<Ref, seq<byte>>, us: set<Ref>, r: Ref)
    requires Filled(next, size, body, us, {}) && r in us
    ensures Filled(next, size, body, us, {r}) && FilledAt(next, size, body, r)
  {
    assert FilledAt(next, size, body, r);
    forall q | q in us && q !in {r} ensures FilledAt(next, size, body, q) {}
  }

  lemma FilledRewrite(next: map<Ref, nat>, size: map<Ref, nat>, body: map<Ref, seq<byte>>, us: set<Ref>, r: Ref,
      b: seq<byte>)
    requires Filled(next, size, body, us, {}) && r in next && 0 < |b| <= Capacity(next, r)
    ensures Filled(next, size[r := |b|], body[r := b], us, {r})
    ensures Fits(next, r, |b|) ==> Filled(next, size[r := |b|], body[r := b], us, {})
  {
    forall q | q in us && q != r
      ensures FilledAt(next, size[r := |b|], body[r := b], q)
    {
      assert FilledAt(next, size, body, q);
    }
  }

  lemma FilledWrite(next: map<Ref, nat>, size: map<Ref, nat>, body: map<Ref, seq<byte>>, us: set<Ref>, x: set<Ref>,
      r: Ref, b: seq<byte>)
    requires Filled(next, size, body, us, x)
    ensures Filled(next, size, body[r := b], us + {r}, x + {r})
  {
    forall q | q in us + {r} && q !in x + {r}
      ensures FilledAt(next, size, body[r := b], q)
    {
      assert FilledAt(next, size, body, q);
    }
  }

  lemma StartChain(link: map<Ref, Ref>, ch: map<Ref, seq<Ref>>, own: map<Ref, Owner>, us: set<Ref>, open: set<Ref>,
      r: Ref)
    requires Chained(link, ch, own, us, open) && r !in us
    ensures r !in ch && Chained(link, ch[r := [r]], own[r := Owner(r, 0)], us + {r}, open + {r})
  {
    var c, o, u, p := ch[r := [r]], own[r := Owner(r, 0)], us + {r}, open + {r};
    forall h | h in ch ensures h != r { assert ChainOK(link, ch, own, us, open, h); }
    forall h | h in c
      ensures ChainOK(link, c, o, u, p, h)
    {
      if h != r { assert ChainOK(link, ch, own, us, open, h); }
    }
    forall x | x in u
      ensures Owned(c, o, x)
    {
      if x != r { assert Owned(ch, own, x); }
    }
  }

  /** The last slice of one chain is in no other chain. */
  lemma LastElsewhere(link: map<Ref, Ref>, ch: map<Ref, seq<Ref>>, own: map<Ref, Owner>, us: set<Ref>, open: set<Ref>,
      h: Ref, x: Ref)
    requires ChainOK(link, ch, own, us, open, h) && ChainOK(link, ch, own, us, open, x) && h != x
    ensures ch[h][|ch[h]| - 1] !in ch[x]
  {
  }

  lemma ExtendChain(link: map<Ref, Ref>, ch: map<Ref, seq<Ref>>, own: map<Ref, Owner>, us: set<Ref>, open: set<Ref>,
      h: Ref, r: Ref)
    requires Chained(link, ch, own, us, open) && r !in us && h in ch && h in open && |ch[h]| > 0
    ensures Chained(link[ch[h][|ch[h]| - 1] := r], ch[h := ch[h] + [r]], own[r := Owner(h, |ch[h]|)], us + {r}, open)
  {
    var last := ch[h][|ch[h]| - 1];
    var n, c, o, u := link[last := r], ch[h := ch[h] + [r]], own[r := Owner(h, |ch[h]|)], us + {r};
    assert ChainOK(link, ch, own, us, open, h);
    forall x | x in c
      ensures ChainOK(n, c, o, u, open, x)
    {
      assert ChainOK(link, ch, own, us, open, x);
      if x != h {
        ExtendedElsewhere(link, ch, own, us, open, h, r, x);
      } else {
        ExtendedHere(link, ch, own, us, open, h, r);
      }
    }
    hide ChainOK;
    forall x | x in u
      ensures Owned(c, o, x)
    {
      if x != r { assert Owned(ch, own, x); }
    }
  }

  lemma ExtendedElsewhere(link: map<Ref, Ref>, ch: map<Ref, seq<Ref>>, own: map<Ref, Owner>, us: set<Ref>,
      open: set<Ref>, h: Ref, r: Ref, x: Ref)
    requires ChainOK(link, ch, own, us, open, h) && ChainOK(link, ch, own, us, open, x) && h != x && r !in us
    ensures ChainOK(link[ch[h][|ch[h]| - 1] := r], ch[h := ch[h] + [r]], own[r := Owner(h, |ch[h]|)], us + {r}, open, x)
  {
    LastElsewhere(link, ch, own, us, open, h, x);
  }

  lemma ExtendedHere(link: map<Ref, Ref>, ch: map<Ref, seq<Ref>>, own: map<Ref, Owner>, us: set<Ref>,
      open: set<Ref>, h: Ref, r: Ref)
    requires ChainOK(link, ch, own, us, open, h) && h in open && r !in us
    ensures ChainOK(link[ch[h][|ch[h]| - 1] := r], ch[h := ch[h] + [r]], own[r := Owner(h, |ch[h]|)], us + {r}, open, h)
  {
  }

  ghost function Tail(own: map<Ref, Owner>, c: seq<Ref>, h: Ref, k: nat): map<Ref, Owner>
    requires k < |c|
  {
    map r | r in own :: if own[r].h == h && own[r].k >= k then Owner(c[k], own[r].k - k) else own[r]
  }

  /** What is behind the first k slices of chain h becomes a chain of its own. */
  lemma SplitChain(link: map<Ref, Ref>, ch: map<Ref, seq<Ref>>, own: map<Ref, Owner>, us: set<Ref>, open: set<Ref>,
      h: Ref, k: nat)
    requires Chained(link, ch, own, us, open) && h in ch && 0 < k < |ch[h]| && h !in open && open <= ch.Keys
    ensures ch[h][k] !in ch
    ensures Chained(link, ch[h := ch[h][..k]][ch[h][k] := ch[h][k..]], Tail(own, ch[h], h, k), us, open + {h})
  {
    var c, t := ch[h], ch[h][k];
    var d, o := ch[h := c[..k]][t := c[k..]], Tail(own, c, h, k);
    assert ChainOK(link, ch, own, us, open, h);
    assert own[t] == Owner(h, k);
    forall x | x in ch ensures x != t { assert ChainOK(link, ch, own, us, open, x); }
    forall x | x in d
      ensures ChainOK(link, d, o, us, open + {h}, x)
    {
      if x == t {
        TailChain(link, ch, own, us, open, h, k, d);
      } else {
        KeptChain(link, ch, own, us, open, h, k, d, x);
      }
    }
    hide ChainOK, Owned;
    forall x | x in us
      ensures Owned(d, o, x)
    {
      OwnedSplit(ch, own, h, k, d, x);
    }
  }

  lemma OwnedSplit(ch: map<Ref, seq<Ref>>, own: map<Ref, Owner>, h: Ref, k: nat, d: map<Ref, seq<Ref>>, x: Ref)
    requires h in ch && 0 < k < |ch[h]| && ch[h][k] !in ch && Owned(ch, own, x)
    requires d == ch[h := ch[h][..k]][ch[h][k] := ch[h][k..]]
    ensures Owned(d, Tail(own, ch[h], h, k), x)
  {
  }

  lemma KeptChain(link: map<Ref, Ref>, ch: map<Ref, seq<Ref>>, own: map<Ref, Owner>, us: set<Ref>, open: set<Ref>,
      h: Ref, k: nat, d: map<Ref, seq<Ref>>, x: Ref)
    requires Chained(link, ch, own, us, open) && h in ch && 0 < k < |ch[h]|
    requires x in ch && x in d && d[x] == if x == h then ch[h][..k] else ch[x]
    ensures ChainOK(link, d, Tail(own, ch[h], h, k), us, open + {h}, x)
  {
    assert ChainOK(link, ch, own, us, open, x);
  }

  lemma TailChain(link: map<Ref, Ref>, ch: map<Ref, seq<Ref>>, own: map<Ref, Owner>, us: set<Ref>, open: set<Ref>,
      h: Ref, k: nat, d: map<Ref, seq<Ref>>)
    requires ChainOK(link, ch, own, us, open, h) && 0 < k < |ch[h]| && h !in open && ch[h][k] !in open
    requires ch[h][k] in d && d[ch[h][k]] == ch[h][k..]
    ensures ChainOK(link, d, Tail(own, ch[h], h, k), us, open + {h}, ch[h][k])
  {
    var c := ch[h];
    var t := c[k];
    var o := Tail(own, c, h, k);
    assert own[c[0]] == Owner(h, 0) && own[c[k]] == Owner(h, k);
    forall j {:trigger d[t][j]} | 0 <= j < |d[t]|
      ensures d[t][j] in us && d[t][j] in o && o[d[t][j]] == Owner(t, j)
    {
      assert d[t][j] == c[k + j];
    }
    forall j {:trigger d[t][j]} | 0 <= j < |d[t]| - 1
      ensures d[t][j] in link && link[d[t][j]] == d[t][j + 1]
    {
      assert d[t][j] == c[k + j] && d[t][j + 1] == c[k + j + 1];
    }
    assert d[t][|d[t]| - 1] == c[|c| - 1];
  }

  /** Chain h is given up. */
  lemma DropChain(link: map<Ref, Ref>, ch: map<Ref, seq<Ref>>, own: map<Ref, Owner>, us: set<Ref>, open: set<Ref>,
      h: Ref, x: set<Ref>)
    requires Chained(link, ch, own, us, open) && h in ch && forall r {:trigger r in x} ::
             r in x <==> r in us && r in own && own[r].h == h
    ensures x <= us && Chained(link, ch - {h}, own, us - x, open)
  {
    forall g | g in ch - {h}
      ensures ChainOK(link, ch - {h}, own, us - x, open, g)
    {
      assert ChainOK(link, ch, own, us, open, g);
    }
    forall r | r in us - x
      ensures Owned(ch - {h}, own, r)
    {
      assert Owned(ch, own, r);
    }
  }

  /** The slices of a chain are those that know it as theirs, and they are linked up to the end mark. */
  lemma ChainSlices(link: map<Ref, Ref>, ch: map<Ref, seq<Ref>>, own: map<Ref, Owner>, us: set<Ref>, open: set<Ref>,
      h: Ref)
    requires Chained(link, ch, own, us, open) && h in ch && h !in open
    ensures |ch[h]| > 0 && ch[h][0] == h && Run(link, ch[h], 0)
    ensures forall r {:trigger r in ch[h]} :: r in ch[h] <==> r in us && r in own && own[r].h == h
  {
    assert ChainOK(link, ch, own, us, open, h);
    forall r | r in us && r in own && own[r].h == h
      ensures r in ch[h]
    {
      assert Owned(ch, own, r);
    }
    forall k, m | 0 <= k < m < |ch[h]|
      ensures ch[h][k] != ch[h][m]
    {
      assert own[ch[h][k]].k == k && own[ch[h][m]].k == m;
    }
  }

  /** The slices c[i..] are distinct and each is linked to the next, the last one to none. */
  ghost predicate Run(link: map<Ref, Ref>, c: seq<Ref>, i: nat) {
    && (forall k, m | i <= k < m < |c| :: c[k] != c[m])
    && (forall k {:trigger c[k]} | i <= k < |c| :: c[k] in link && link[c[k]] == if k + 1 < |c| then c[k + 1] else NONE)
  }

  /** The end mark of chain h. */
  lemma CloseChain(link: map<Ref, Ref>, ch: map<Ref, seq<Ref>>, own: map<Ref, Owner>, us: set<Ref>, open: set<Ref>,
      h: Ref)
    requires Chained(link, ch, own, us, open) && h in ch && |ch[h]| > 0
    ensures Chained(link[ch[h][|ch[h]| - 1] := NONE], ch, own, us, open - {h})
  {
    var last := ch[h][|ch[h]| - 1];
    assert ChainOK(link, ch, own, us, open, h);
    forall x | x in ch
      ensures ChainOK(link[last := NONE], ch, own, us, open - {h}, x)
    {
      assert ChainOK(link, ch, own, us, open, x);
    }
  }

  lemma ChainedFrame(link: map<Ref, Ref>, m: map<Ref, Ref>, ch: map<Ref, seq<Ref>>, own: map<Ref, Owner>,
      us: set<Ref>, open: set<Ref>)
    requires Chained(link, ch, own, us, open)
    requires forall r | r in us && r in link :: r in m && m[r] == link[r]
    ensures Chained(m, ch, own, us, open)
  {
    forall x | x in ch
      ensures ChainOK(m, ch, own, us, open, x)
    {
      assert ChainOK(link, ch, own, us, open, x);
    }
  }

  /** A record that had the slices c keeps the first m of them; there is none behind, or the first one that is not kept
      was not a whole page long. */
  ghost predicate Keeps(c: seq<Ref>, size: map<Ref, nat>, now: seq<Ref>, m: nat) {
    && 0 < m <= |c| && m <= |now| && now[..m] == c[..m]
    && (|now| == m || m == |c| || (c[m] in size && size[c[m]] < PAGEMAXSPARE))
  }

  ghost function Slices(c: seq<Ref>, i: nat): set<Ref> {
    var d := c[if i <= |c| then i else |c|..];
    set r | r in d
  }

  lemma RunStep(link: map<Ref, Ref>, c: seq<Ref>, i: nat)
    requires Run(link, c, i) && i < |c|
    ensures c[i] in link && link[c[i]] == (if i + 1 < |c| then c[i + 1] else NONE)
    ensures c[i] in Slices(c, i) && Slices(c, i + 1) == Slices(c, i) - {c[i]}
  {
    assert c[i..] == [c[i]] + c[i + 1..];
    var d := c[i + 1..];
    forall k | 0 <= k < |d|
      ensures d[k] != c[i]
    {
      assert d[k] == c[i + 1 + k];
    }
  }

  lemma RunKept(link: map<Ref, Ref>, m: map<Ref, Ref>, c: seq<Ref>, i: nat, u: set<Ref>)
    requires 0 < i <= |c| && Run(link, c, i - 1) && Slices(c, i) <= u
    requires forall r | r in u && r in link :: r in m && m[r] == link[r]
    ensures Run(m, c, i)
  {
    forall k {:trigger c[k]} | i <= k < |c|
      ensures c[k] in m && m[c[k]] == if k + 1 < |c| then c[k + 1] else NONE
    {
      assert c[i..][k - i] == c[k];
    }
  }

  lemma FilledSubset(next: map<Ref, nat>, size: map<Ref, nat>, body: map<Ref, seq<byte>>, us: set<Ref>, u: set<Ref>)
    requires Filled(next, size, body, us, {}) && u <= us
    ensures Filled(next, size, body, u, {})
  {
    forall r | r in u ensures FilledAt(next, size, body, r) { assert r in us; assert FilledAt(next, size, body, r); }
  }
}
