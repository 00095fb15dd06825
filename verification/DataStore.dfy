/** Slice allocation of `znet/common/db.h`: the bucket lists, splitting and coalescing of slices. */
module DataStore {
  import opened DataModel
  import opened Keys
  import opened PageSpace
  import opened RecordModel

  class DataPages {
    const space: Space
    var next: map<Ref, nat>         // header fields by place of the header
    var size: map<Ref, nat>
    var link: map<Ref, Ref>
    var prev: map<Ref, Ref>
    var head: seq<Ref>              // frag_page_index and frag_page_pos of the magic page
    var body: map<Ref, seq<byte>>   // the bytes behind a header
    ghost var hd: set<Ref>          // where headers stand now
    ghost var fr: set<Ref>          // the listed free slices
    ghost var us: set<Ref>          // the used slices
    ghost var pages: set<nat>
    ghost var ord: map<Ref, int>
    ghost var ch: map<Ref, seq<Ref>>
    ghost var own: map<Ref, Owner>
    ghost var open: set<Ref>

    constructor (space: Space)
      requires space.Valid()
      ensures this.space == space && Valid() && pages == {} && Data() == map[]
    {
      this.space := space;
      next, size, link, prev, body := map[], map[], map[], map[], map[];
      head := seq(BUCKETS, _ => NONE);
      hd, fr, us, pages, open := {}, {}, {}, {}, {};
      ord, ch, own := map[], map[], map[];
    }

    ghost function L(): Lists
      reads `link, `prev, `head, `ord
    {
      Lists(link, prev, head, ord)
    }

    /** Tiles, lists and marks agree; `x` are slices in transit, those of `z` are not marked yet. */
    ghost predicate Core(x: set<Ref>, z: set<Ref>)
      reads `next, `size, `link, `prev, `head, `ord, `hd, `fr, `us, `pages, space
    {
      && space.Valid() && pages <= space.Used()
      && Tiled(next, hd, pages) && Listed(next, L(), fr) && Apart(next, fr) && Marked(size, hd, fr, z)
      && hd == fr + us + x && fr !! us && fr !! x && us !! x
    }

    /** The links of used slices are those of `m`. */
    ghost predicate LinksKept(m: map<Ref, Ref>, u: set<Ref>)
      reads `link
    {
      forall r | r in u && r in m :: r in link && link[r] == m[r]
    }

    ghost predicate NextKept(n: map<Ref, nat>, u: set<Ref>)
      reads `next
    {
      forall r | r in u && r in n :: r in next && next[r] == n[r]
    }

    ghost predicate SizesKept(n: map<Ref, nat>, u: set<Ref>)
      reads `size
    {
      forall r | r in u && r in n :: r in size && size[r] == n[r]
    }

    // ---------- bucket lists ----------

    /** clr_fragment(): r leaves its list. */
    method ClrFragment(r: Ref)
      requires Listed(next, L(), fr) && r in fr
      modifies `link, `prev, `head, `fr
      ensures Listed(next, L(), fr) && fr == old(fr) - {r}
      ensures forall q | q in old(link) && q !in old(fr) :: q in link && link[q] == old(link[q])
    {
      assert FragOK(next, L(), fr, r);
      ghost var l := L();
      var a, b := prev[r], link[r];
      if a.page > 0 {
        if b.page > 0 {
          link := link[a := b];
          prev := prev[b := a];
        } else {
          link := link[a := NONE];
        }
      } else {
        var i := Bucket(next, r);
        if b.page > 0 {
          head := head[i := b];
          prev := prev[b := NONE];
        } else {
          head := head[i := NONE];
        }
      }
      UnlinkedListed(next, l, L(), fr, r);
      fr := fr - {r};
    }

    /** The part of set_fragment() that keeps the page: r becomes the first of its list. */
    method PushFragment(r: Ref)
      requires Listed(next, L(), fr) && r !in fr && r.page > 0 && r in next && 0 <= Bucket(next, r) < BUCKETS
               && Capacity(next, r) < PAGEMAXSPARE
      modifies `link, `prev, `head, `fr, `ord
      ensures Listed(next, L(), fr) && fr == old(fr) + {r}
      ensures forall q | q in old(link) && q !in old(fr) && q != r :: q in link && link[q] == old(link[q])
    {
      ghost var l := L();
      var i := Bucket(next, r);
      var b := head[i];
      assert HeadOK(next, l, fr, i);
      if b.page > 0 {
        assert FragOK(next, l, fr, b);
        prev := prev[b := r];
      }
      link := link[r := b];
      prev := prev[r := NONE];
      head := head[i := r];
      ord := ord[r := if b.page > 0 then ord[b] + 1 else 0];
      LinkedListed(next, l, L(), fr, r);
      fr := fr + {r};
    }

    /** set_fragment(): a free slice is listed, a wholly free page goes back to the page list. */
    method SetFragment(r: Ref, ghost x: set<Ref>)
      requires Core(x, {r}) && r in x && r in size && size[r] == 0
      requires r in next && Following(next, r) !in fr && (forall q | q in fr :: q in next && Following(next, q) != r)
      modifies `link, `prev, `head, `fr, `ord, `hd, `pages, space
      ensures Core(x - {r}, {})
      ensures LinksKept(old(link), us + x - {r}) && space.Used() - pages == old(space.Used() - pages)
      ensures if Capacity(next, r) == PAGEMAXSPARE then fr == old(fr) && pages == old(pages) - {r.page}
              else fr == old(fr) + {r} && pages == old(pages)
    {
      TileFacts(next, hd, pages, r);
      if Capacity(next, r) == PAGEMAXSPARE {
        DropTile(next, hd, pages, r);
        space.Free(r.page);
        pages := pages - {r.page};
        hd := hd - {r};
      } else {
        ApartPlus(next, fr, r);
        PushFragment(r);
      }
    }

    /** __alloc_data_head(): a free slice with room for n bytes, or a fresh page. */
    method TakeHead(n: nat) returns (r: Ref)
      requires Core({}, {}) && 0 < n
      modifies `next, `link, `prev, `head, `fr, `hd, `pages, space
      ensures Core({r}, {r}) && r !in us && r.page > 0
      ensures r in next && (n < PAGEMAXSPARE ==> n <= Capacity(next, r))
              && (n >= PAGEMAXSPARE ==> Capacity(next, r) == PAGEMAXSPARE)
      ensures Following(next, r) !in fr && (forall q | q in fr :: q in next && Following(next, q) != r)
      ensures LinksKept(old(link), us) && space.Used() - pages == old(space.Used() - pages)
      ensures NextKept(old(next), us)
      ensures if n < PAGEMAXSPARE && (exists q :: q in old(fr) && Serves(old(next), q, n)) then
                && pages == old(pages) && next == old(next) && r in old(fr) && Serves(next, r, n)
                && 0 <= Bucket(next, r) < |old(head)| && r == old(head)[Bucket(next, r)]
                && forall q | q in old(fr) && Serves(next, q, n) :: Bucket(next, r) <= Bucket(next, q)
              else fr == old(fr) && r.page !in old(pages) && pages == old(pages) + {r.page}
    {
      if n < PAGEMAXSPARE {
        var i := (n + FRAGMIN - 1) / FRAGMIN;
        while i < BUCKETS
          invariant Core({}, {}) && 0 < i && n <= i * FRAGMIN && unchanged(this) && unchanged(space)
          invariant forall q | q in fr && Serves(next, q, n) :: i <= Bucket(next, q)
        {
          if head[i].page > 0 {
            assert HeadOK(next, L(), fr, i);
            r := PopHead(i);
            return;
          }
          NoneListed(next, L(), fr, i);
          i := i + 1;
        }
        forall q | q in fr ensures !Serves(next, q, n) { assert FragOK(next, L(), fr, q); }
      }
      r := FreshSlice();
    }

    /** The first slice of bucket list i is taken off. */
    method PopHead(i: int) returns (r: Ref)
      requires Core({}, {}) && 0 <= i < BUCKETS && head[i].page > 0
      modifies `link, `prev, `head, `fr
      ensures Core({r}, {r}) && r !in us && r.page > 0
      ensures r in next && i * FRAGMIN <= Capacity(next, r) && r == old(head)[i] && r in old(fr) && Bucket(next, r) == i
      ensures Following(next, r) !in fr && (forall q | q in fr :: q in next && Following(next, q) != r)
      ensures LinksKept(old(link), us)
    {
      ghost var l := L();
      assert HeadOK(next, l, fr, i);
      r := head[i];
      assert FragOK(next, l, fr, r);
      head := head[i := link[r]];
      if link[r].page > 0 {
        prev := prev[link[r] := NONE];
      }
      UnlinkedListed(next, l, L(), fr, r);
      fr := fr - {r};
    }

    /** A page of its own, one slice long. */
    method FreshSlice() returns (r: Ref)
      requires Core({}, {})
      modifies `next, `hd, `pages, space
      ensures Core({r}, {r}) && r !in us && r.page > 0
      ensures r in next && Capacity(next, r) == PAGEMAXSPARE
      ensures Following(next, r) !in fr && (forall q | q in fr :: q in next && Following(next, q) != r)
      ensures space.Used() - pages == old(space.Used() - pages)
      ensures NextKept(old(next), us) && fr == old(fr) && r.page !in old(pages) && pages == old(pages) + {r.page}
    {
      var p := space.Alloc();
      r := Ref(p, 0);
      ghost var n := next;
      next := next[r := PAGEEND];
      NewTile(n, hd, pages, p, next);
      ListedFrame(n, next, L(), L(), fr);
      ApartFrame(n, next, fr);
      hd := hd + {r};
      pages := pages + {p};
      TileFacts(next, hd, pages, r);
    }

    // ---------- splitting and coalescing ----------

    /** The free slice q behind r leaves its list and becomes part of r. */
    method Absorb(r: Ref, q: Ref, ghost x: set<Ref>, ghost z: set<Ref>)
      requires Core(x, z) && z <= x && r in us + x && r in next && q == Following(next, r) && q in fr
      modifies `next, `link, `prev, `head, `fr, `hd
      ensures Core(x, z) && fr == old(fr) - {q} && r in next && r in old(next) && old(next[r]) < next[r]
      ensures q in old(next) && next[r] == old(next)[q]
      ensures Following(next, r) !in fr
      ensures LinksKept(old(link), us + x) && NextKept(old(next), us + x - {r}) && NextKept(old(next), fr)
      ensures forall p | p in old(link) && p !in old(fr) :: p in link && link[p] == old(link[p])
    {
      TileFacts(next, hd, pages, r);
      TileFacts(next, hd, pages, q);
      ghost var n := next;
      ClrFragment(q);
      next := next[r := next[q]];
      MergeTiles(n, hd, pages, r, next);
      ListedFrame(n, next, L(), L(), fr);
      ApartFrame(n, next, fr);
      hd := hd - {q};
    }

    /** A new free slice f starts inside slice r and reaches to its end. */
    method SplitSlice(r: Ref, f: Ref, ghost x: set<Ref>)
      requires Core(x, {}) && r in us + x && r in next && Following(next, r) !in fr
      requires f.page == r.page && f.pos % 16 == 0 && r.pos + 16 <= f.pos && f.pos + 16 <= next[r]
      modifies `next, `size, `link, `prev, `head, `fr, `ord, `hd, `pages, space
      ensures Core(x, {}) && r in next && next[r] == f.pos
      ensures fr == old(fr) + {f} && f in next && r in old(next) && next[f] == old(next[r]) && pages == old(pages)
      ensures LinksKept(old(link), us + x) && NextKept(old(next), us + x - {r}) && SizesKept(old(size), us + x)
      ensures space.Used() - pages == old(space.Used() - pages)
    {
      hide Listed, Tiled;
      TileFacts(next, hd, pages, r);
      ghost var n := next;
      next := next[f := next[r]];
      size := size[f := 0];
      next := next[r := f.pos];
      SplitTiles(n, hd, pages, r, f.pos, next);
      ListedFrame(n, next, L(), L(), fr);
      ApartFrame(n, next, fr);
      hd := hd + {f};
      TileFacts(next, hd, pages, f);
      forall q | q in fr
        ensures q in next && Following(next, q) != f
      {
        TileFacts(next, hd, pages, q);
        if Following(next, q) == f { OnePredecessor(next, hd, pages, q, r); }
      }
      SetFragment(f, x + {f});
    }

    /** adjust_data_head(): what slice r has beyond n bytes becomes a free slice, if it is worth one. */
    method AdjustDataHead(r: Ref, n: nat, ghost x: set<Ref>)
      requires Core(x, {}) && r in us + x && r in next && 0 < n <= Capacity(next, r)
      modifies `next, `size, `link, `prev, `head, `fr, `ord, `hd, `pages, space
      ensures Core(x, {}) && Fits(next, r, n)
      ensures old(Capacity(next, r)) < PAGEMINSPARE + n + HEADER ==>
              next == old(next) && size == old(size) && link == old(link) && fr == old(fr) && head == old(head)
      ensures old(Capacity(next, r)) >= PAGEMINSPARE + n + HEADER ==>
              var q := old(Following(next, r));
              && next[r] % 16 == 0 && r.pos + HEADER + n <= next[r] < r.pos + HEADER + n + 16
              && fr == old(fr) - {q} + {Following(next, r)} && Following(next, r) in next
              && next[Following(next, r)] == if q in old(fr) && q in old(next) then old(next)[q] else old(next[r])
      ensures LinksKept(old(link), us + x) && NextKept(old(next), us + x - {r}) && SizesKept(old(size), us + x)
      ensures space.Used() - pages == old(space.Used() - pages) && pages == old(pages)
    {
      TileFacts(next, hd, pages, r);
      if PAGEMINSPARE + n + HEADER <= Capacity(next, r) {
        var f := Ref(r.page, (r.pos + HEADER + n + 15) / 16 * 16);
        var q := Following(next, r);
        if next[r] != PAGEEND && size[q] == 0 {
          Absorb(r, q, x, {});
        }
        SplitSlice(r, f, x);
      }
    }

    /** alloc_data_head(): a slice marked as holding n bytes, or as many as a page holds. */
    method AllocDataHead(n: nat) returns (r: Ref)
      requires Core({}, {}) && 0 < n
      modifies `next, `size, `link, `prev, `head, `fr, `ord, `hd, `pages, space
      ensures Core({r}, {}) && r !in us && r.page > 0
      ensures r in size && size[r] == (if n < PAGEMAXSPARE then n else PAGEMAXSPARE) && Fits(next, r, size[r])
      ensures LinksKept(old(link), us) && NextKept(old(next), us) && SizesKept(old(size), us)
      ensures space.Used() - pages == old(space.Used() - pages)
      ensures if n < PAGEMAXSPARE && (exists q :: q in old(fr) && Serves(old(next), q, n)) then pages == old(pages)
              else r.page !in old(pages) && pages == old(pages) + {r.page}
    {
      hide Listed, Tiled, Apart, Serves;
      r := TakeHead(n);
      if n < PAGEMAXSPARE {
        size := size[r := n];
        AdjustDataHead(r, n, {r});
      } else {
        size := size[r := PAGEMAXSPARE];
      }
    }

    /** The header in front of r in its page. */
    method Before(r: Ref) returns (cur: Ref)
      requires Tiled(next, hd, pages) && r in hd && r.pos > 0
      ensures cur in hd && cur in next && Following(next, cur) == r && cur != r
    {
      TileFacts(next, hd, pages, r);
      cur := Ref(r.page, 0);
      TileFacts(next, hd, pages, cur);
      while Following(next, cur) != r
        invariant Tiled(next, hd, pages) && cur in hd && cur in next && cur.page == r.page && cur.pos < r.pos
        decreases r.pos - cur.pos
      {
        TileFacts(next, hd, pages, cur);
        assert Clear(next, cur, r);
        cur := Following(next, cur);
        TileFacts(next, hd, pages, cur);
      }
    }

    /** The free slice cur takes over r, the slice in transit behind it, and is in transit instead. */
    method AbsorbedBy(cur: Ref, r: Ref, ghost x: set<Ref>, ghost y: set<Ref>)
      requires Core(x, {r}) && r in x && cur in fr && cur in next && r == Following(next, cur) && y == x - {r} + {cur}
      modifies `next, `link, `prev, `head, `fr, `hd
      ensures Core(y, {cur}) && cur in next && cur !in us && fr == old(fr) - {cur}
      ensures forall q | q in fr :: q in next && Following(next, q) != cur
      ensures LinksKept(old(link), us + x) && NextKept(old(next), us + x - {r})
      ensures forall p | p in old(link) && p !in old(fr) :: p in link && link[p] == old(link[p])
    {
      hide Listed, Tiled;
      TileFacts(next, hd, pages, cur);
      TileFacts(next, hd, pages, r);
      ghost var n, free := next, fr;
      ClrFragment(cur);
      next := next[cur := next[r]];
      forall q | q in fr
        ensures q in next && Following(next, q) != cur
      {
        assert q in free && Following(n, q) !in free;
      }
      MergeTiles(n, hd, pages, cur, next);
      ListedFrame(n, next, L(), L(), fr);
      ApartFrame(n, next, fr);
      hd := hd - {r};
    }

    /** r is marked free; it belongs to the free slice in front of it, if there is one. */
    method JoinBefore(r: Ref, ghost x: set<Ref>) returns (cur: Ref, ghost y: set<Ref>)
      requires Core(x, {}) && r in x && r in next
      modifies `next, `size, `link, `prev, `head, `fr, `hd
      ensures Core(y, {cur}) && cur in y && y - {cur} == x - {r} && cur in next && cur in size && size[cur] == 0
              && cur !in us
      ensures forall q | q in fr :: q in next && Following(next, q) != cur
      ensures LinksKept(old(link), us + x) && NextKept(old(next), us + x - {r}) && SizesKept(old(size), us + x - {r})
      ensures r !in fr && (r in old(link) ==> r in link && link[r] == old(link[r]))
    {
      hide Listed, Tiled;
      cur, y := r, x;
      size := size[r := 0];
      if r.pos != 0 {
        var p := Before(r);
        if size[p] == 0 {
          cur, y := p, x - {r} + {p};
          AbsorbedBy(p, r, x, y);
          return;
        }
        forall q | q in fr
          ensures q in next && Following(next, q) != r
        {
          TileFacts(next, hd, pages, q);
          if Following(next, q) == r { OnePredecessor(next, hd, pages, q, p); }
        }
      } else {
        forall q | q in fr
          ensures q in next && Following(next, q) != r
        {
          TileFacts(next, hd, pages, q);
        }
      }
    }

    /** A free slice right behind cur becomes part of it. */
    method JoinAfter(cur: Ref, ghost y: set<Ref>)
      requires Core(y, {cur}) && cur in y && cur in next
      requires forall q | q in fr :: q in next && Following(next, q) != cur
      modifies `next, `link, `prev, `head, `fr, `hd
      ensures Core(y, {cur}) && cur in next && Following(next, cur) !in fr
      ensures forall q | q in fr :: q in next && Following(next, q) != cur
      ensures LinksKept(old(link), us + y) && NextKept(old(next), us + y - {cur})
      ensures forall p | p in old(link) && p !in old(fr) :: p in link && link[p] == old(link[p])
    {
      hide Listed, Tiled, Apart;
      TileFacts(next, hd, pages, cur);
      var q := Following(next, cur);
      if next[cur] != PAGEEND && size[q] == 0 {
        ghost var n, free := next, fr;
        Absorb(cur, q, y, {cur});
        forall p | p in fr
          ensures p in next && Following(next, p) != cur
        {
          assert p in free && p in n && Following(n, p) != cur;
        }
      }
    }

    /** One turn of free_data(): slice r is freed and joined with its free neighbours. */
    method FreeSlice(r: Ref, ghost x: set<Ref>) returns (follower: Ref)
      requires Core(x, {}) && r in x && r in next && r in link
      modifies `next, `size, `link, `prev, `head, `fr, `ord, `hd, `pages, space
      ensures Core(x - {r}, {}) && follower == old(link[r])
      ensures LinksKept(old(link), us + x - {r}) && NextKept(old(next), us + x - {r})
              && SizesKept(old(size), us + x - {r})
      ensures space.Used() - pages == old(space.Used() - pages)
    {
      hide Core, Following;
      var cur, y := JoinBefore(r, x);
      JoinAfter(cur, y);
      follower := link[r];
      SetFragment(cur, y);
    }

    // ---------- writing a record ----------

    /** The used slices make up the records; those of `e` are not full yet. */
    ghost predicate Books(e: set<Ref>)
      reads this, space
    {
      Core({}, {}) && Chained(link, ch, own, us, open) && Filled(next, size, body, us, e) && open <= ch.Keys
    }

    ghost predicate Valid()
      reads this, space
    {
      Books({}) && open == {}
    }

    /** Valid() without the page numbers it shares with others. */
    ghost predicate Inside()
      reads this
    {
      && Tiled(next, hd, pages) && Listed(next, L(), fr) && Apart(next, fr) && Marked(size, hd, fr, {})
      && hd == fr + us && fr !! us && Chained(link, ch, own, us, open) && Filled(next, size, body, us, {}) && open == {}
    }

    lemma ValidIs()
      ensures Valid() <==> Inside() && space.Valid() && pages <= space.Used()
    {
      assert us !! {} && fr !! {} && fr + us + {} == fr + us;
    }

    /** Every record by the place of its first slice. */
    ghost function Data(): map<Ref, seq<byte>>
      reads this
    {
      DataOf(ch, body)
    }

    /** Record h is being written and r is its last slice. */
    ghost predicate Writing(h: Ref, r: Ref)
      reads this, space
    {
      && Books({r}) && open == {h} && h in ch && ch[h] != [] && ch[h][|ch[h]| - 1] == r && r in us
      && r !in ch[h][..|ch[h]| - 1]
      && r in own && own[r].h == h
      && r in body && r in size && |body[r]| <= size[r] && 0 < size[r] && Fits(next, r, size[r])
    }

    /** A used slice that belongs to no record yet. */
    method AllocSlice(n: nat) returns (r: Ref)
      requires Books({}) && 0 < n
      modifies `next, `size, `link, `prev, `head, `fr, `ord, `hd, `pages, space
      ensures Core({r}, {}) && Chained(link, ch, own, us, open) && Filled(next, size, body, us, {}) && r !in us
              && r.page > 0
      ensures r in size && size[r] == (if n < PAGEMAXSPARE then n else PAGEMAXSPARE) && Fits(next, r, size[r])
      ensures SizesKept(old(size), us) && space.Used() - pages == old(space.Used() - pages)
    {
      hide Listed, Tiled, Marked, Apart, Chained, Filled;
      ghost var n0, s0, l0 := next, size, link;
      r := AllocDataHead(n);
      ChainedFrame(l0, link, ch, own, us, open);
      FilledFrame(n0, s0, body, us, {}, next, size);
    }

    /** The slice in transit joins the used ones. */
    ghost method Settle(r: Ref, c: map<Ref, seq<Ref>>, o: map<Ref, Owner>, p: set<Ref>)
      requires Core({r}, {})
      modifies `ch, `own, `us, `open
      ensures Core({}, {}) && ch == c && own == o && open == p && us == old(us) + {r}
    {
      hide Listed, Tiled, Marked, Apart;
      ch, own, us, open := c, o, us + {r}, p;
    }

    lemma UsedNotFree(r: Ref, x: set<Ref>)
      requires Core(x, {}) && r in us
      ensures r !in fr
    {
    }

    /** set_next() of a slice that is not free. */
    method SetNext(r: Ref, q: Ref, ghost x: set<Ref>)
      requires Core(x, {}) && r !in fr
      modifies `link
      ensures Core(x, {}) && link == old(link)[r := q]
    {
      hide Tiled, Marked, Apart, Listed;
      ghost var l := L();
      link := link[r := q];
      ListedFrame(next, next, l, L(), fr);
    }

    method BeginRecord(n: nat) returns (r: Ref)
      requires Valid() && 0 < n
      modifies this, space
      ensures Writing(r, r) && body[r] == [] && size[r] == if n < PAGEMAXSPARE then n else PAGEMAXSPARE
      ensures r !in old(ch) && ch == old(ch)[r := [r]] && r.page > 0
      ensures Data() - {r} == old(Data()) && space.Used() - pages == old(space.Used() - pages)
    {
      hide Core, Chained, Filled, DataOf;
      r := AllocSlice(n);
      Begun(link, ch, own, us, body, r);
      FilledWrite(next, size, body, us, {}, r, []);
      body := body[r := []];
      Settle(r, ch[r := [r]], own[r := Owner(r, 0)], {r});
      assert {} + {r} == {r};
    }

    /** All slices of record h but the last are as long as a page. */
    ghost predicate Long(h: Ref)
      reads `ch, `size
    {
      h in ch && forall k {:trigger ch[h][k]} | 0 <= k < |ch[h]| - 1 ::
        ch[h][k] in size && size[ch[h][k]] == PAGEMAXSPARE
    }

    lemma OwnSlices(h: Ref)
      requires Books({}) && h in ch
      ensures forall k {:trigger ch[h][k]} | 0 <= k < |ch[h]| :: ch[h][k] in us && ch[h][k] in size
    {
      hide Core, Filled;
      assert ChainOK(link, ch, own, us, open, h);
      forall k | 0 <= k < |ch[h]| ensures ch[h][k] in size { UsedSize(ch[h][k]); }
    }

    lemma UsedSize(r: Ref)
      requires Books({}) && r in us
      ensures r in size
    {
      assert FilledAt(next, size, body, r);
    }

    /** The next slice of a record whose last slice is full. */
    method NextSlice(ghost h: Ref, pdr: Ref, n: nat) returns (r: Ref)
      requires Writing(h, pdr) && |body[pdr]| == size[pdr] && 0 < n
      modifies this, space
      ensures Writing(h, r) && body[r] == [] && size[r] == if n < PAGEMAXSPARE then n else PAGEMAXSPARE
      ensures old(Long(h) && size[pdr] == PAGEMAXSPARE) ==> Long(h)
      ensures h in old(ch) && ch == old(ch)[h := old(ch)[h] + [r]] && r != h
      ensures h in old(body) ==> h in body && |body[h]| >= old(|body[h]|)
      ensures Bytes(body, ch[h]) == old(Bytes(body, ch[h]))
      ensures Data() - {h} == old(Data() - {h}) && space.Used() - pages == old(space.Used() - pages)
    {
      hide Core, Chained, Filled, DataOf, Bytes;
      FilledUp(next, size, body, us, pdr);
      OwnSlices(h);
      r := AllocSlice(n);
      Extended(link, ch, own, us, body, h, r);
      FilledWrite(next, size, body, us, {}, r, []);
      ghost var c := ch[h];
      UsedNotFree(pdr, {r});
      SetNext(pdr, r, {r});
      body := body[r := []];
      Settle(r, ch[h := c + [r]], own[r := Owner(h, |c|)], open);
      assert {} + {r} == {r};
    }

    /** Bytes behind those already in the last slice. */
    method Append(ghost h: Ref, r: Ref, b: seq<byte>)
      requires Writing(h, r) && |body[r]| + |b| <= size[r]
      modifies `body
      ensures Writing(h, r) && |body[r]| == old(|body[r]|) + |b|
      ensures h in old(body) ==> h in body && |body[h]| >= old(|body[h]|)
      ensures Bytes(body, ch[h]) == old(Bytes(body, ch[h])) + b
      ensures Data() - {h} == old(Data() - {h})
    {
      ghost var b0, c := body, ch[h];
      body := body[r := body[r] + b];
      BytesLast(b0, c, b0[r] + b);
      BytesLast(b0, c, b0[r]);
      assert b0[r := b0[r]] == b0;
      FilledWrite(next, size, b0, us, {r}, r, b0[r] + b);
      assert us + {r} == us && {r} + {r} == {r};
      OthersKept(link, ch, own, us, open, b0, h, r, b0[r] + b, ch);
    }

    /** set_next( 0, 0 ) on the last slice. */
    method EndRecord(ghost h: Ref, r: Ref)
      requires Writing(h, r) && |body[r]| == size[r]
      modifies `link, `open
      ensures Valid()
    {
      hide Chained, Filled, Core;
      FilledUp(next, size, body, us, r);
      CloseChain(link, ch, own, us, open, h);
      assert open - {h} == {};
      UsedNotFree(r, {});
      SetNext(r, NONE, {});
      open := {};
    }

    /** Record h lacks `rest` to be d; its last slice r takes `room` more bytes. */
    ghost predicate Filling(h: Ref, r: Ref, room: int, rest: seq<byte>, d: seq<byte>)
      reads this, space
    {
      && Writing(h, r) && 0 <= room == size[r] - |body[r]| && room <= |rest| && Bytes(body, ch[h]) + rest == d
      && h in body && |body[h]| >= 8
    }

    /** The other records, and who owns which page. */
    ghost predicate Elsewhere(h: Ref, data: map<Ref, seq<byte>>, c: map<Ref, seq<Ref>>, foreign: set<nat>)
      reads this, space
    {
      Data() - {h} == data && ch - {h} == c && space.Used() - pages == foreign
    }

    /** As much of s as fits goes into the last slice, and the record gets another one for the rest. */
    method Spill(ghost h: Ref, hdr: Ref, s: seq<byte>, room: nat, more: nat, ghost t: seq<byte>, ghost d: seq<byte>)
      returns (r: Ref, rest: seq<byte>)
      requires Filling(h, hdr, room, s + t, d) && room < |s| && more == |s| - room + |t|
      modifies this, space
      ensures rest == s[room..] && r in size && 0 < size[r] && Filling(h, r, size[r], rest + t, d)
      ensures size[r] == (if more < PAGEMAXSPARE then more else PAGEMAXSPARE)
      ensures old(Long(h) && size[hdr] == PAGEMAXSPARE) ==> Long(h)
      ensures Elsewhere(h, old(Data() - {h}), old(ch - {h}), old(space.Used() - pages))
    {
      hide Books, DataOf, Bytes, Capacity;
      Append(h, hdr, s[..room]);
      rest := s[room..];
      assert s + t == s[..room] + (rest + t);
      r := NextSlice(h, hdr, more);
    }

    /** Bytes that fit into the last slice. */
    method Put(ghost h: Ref, hdr: Ref, b: seq<byte>, ghost room: int, ghost rest: seq<byte>, ghost d: seq<byte>)
      requires Filling(h, hdr, room, b + rest, d) && |b| <= room
      modifies `body
      ensures Filling(h, hdr, room - |b|, rest, d)
      ensures Data() - {h} == old(Data() - {h})
    {
      hide Books, DataOf, Bytes, Capacity;
      Append(h, hdr, b);
    }

    /** The last bytes and the end mark. */
    method Finish(ghost h: Ref, hdr: Ref, b: seq<byte>, ghost room: int, ghost d: seq<byte>)
      requires Filling(h, hdr, room, b, d) && |b| <= room
      modifies `body, `link, `open
      ensures Valid() && h in ch && Data() == old(Data() - {h})[h := d]
    {
      hide Books, DataOf, Bytes, Capacity;
      Append(h, hdr, b);
      DataAt(ch, body, h, Data() - {h});
      EndRecord(h, hdr);
    }

    /** A record of n bytes with its two length words written. */
    method OpenRecord(n: nat, key: seq<byte>, val: seq<byte>) returns (h: Ref)
      requires Valid() && n == 8 + |key| + |val|
      modifies this, space
      ensures h in size && size[h] == (if n < PAGEMAXSPARE then n else PAGEMAXSPARE) && h !in old(ch) && h.page > 0
      ensures Filling(h, h, size[h] - 8, key + val, RecordBytes(key, val)) && Long(h)
      ensures Elsewhere(h, old(Data()), old(ch), old(space.Used() - pages))
    {
      hide Books, DataOf, Bytes, Capacity, Le32;
      h := BeginRecord(n);
      assert Bytes(body, ch[h]) == [] by { OneEmpty(body, h); }
      Append(h, h, Le32(n) + Le32(|key|));
      assert RecordBytes(key, val) == Le32(n) + Le32(|key|) + (key + val);
    }

    /** create_node(): a record with this key and value; no other record is touched. */
    method CreateNode(key: seq<byte>, val: seq<byte>) returns (h: Ref)
      requires Valid() && 8 + |key| + |val| < LIMIT
      modifies this, space
      ensures Valid() && h !in old(ch) && h in ch && h.page > 0
      ensures Data() == old(Data())[h := RecordBytes(key, val)] && ch - {h} == old(ch)
      ensures forall k {:trigger ch[h][k]} | 0 <= k < |ch[h]| - 1 :: ch[h][k] in size && size[ch[h][k]] == 4076
      ensures space.Used() - pages == old(space.Used() - pages)
    {
      hide DataOf, Bytes, RecordBytes, Writing, Books, Filling;
      ghost var d := RecordBytes(key, val);
      var total := |key| + |val| + 8;
      h := OpenRecord(total, key, val);
      var hdr, capacity, k, v := h, size[h], key, val;
      if capacity < total {
        capacity := capacity - 8;
        while capacity < |k|
          invariant Filling(h, hdr, capacity, k + val, d) && 0 < capacity
          invariant Long(h) && hdr in size && (size[hdr] == PAGEMAXSPARE || capacity == |k| + |val|)
          invariant Elsewhere(h, old(Data()), old(ch), old(space.Used() - pages))
          decreases |k|
        {
          hdr, k := Spill(h, hdr, k, capacity, |k| - capacity + |val|, val, d);
          capacity := size[hdr];
        }
        Put(h, hdr, k, capacity, val, d);
        capacity := capacity - |k|;
        while capacity < |v|
          invariant Filling(h, hdr, capacity, v, d) && 0 <= capacity
          invariant Long(h) && hdr in size && (size[hdr] == PAGEMAXSPARE || capacity == |v|)
          invariant Elsewhere(h, old(Data()), old(ch), old(space.Used() - pages))
          decreases |v|, if capacity == 0 then 1 else 0
        {
          assert v + [] == v;
          hdr, v := Spill(h, hdr, v, capacity, |v| - capacity, [], d);
          assert v + [] == v;
          capacity := size[hdr];
        }
      } else {
        capacity := capacity - 8;
        Put(h, hdr, key, capacity, val, d);
        capacity := capacity - |key|;
      }
      Finish(h, hdr, v, capacity, d);
    }

    // ---------- giving up a record ----------

    /** The slices of `x` leave the records and are in transit. */
    ghost method Unsettle(x: set<Ref>, c: map<Ref, seq<Ref>>)
      requires Core({}, {}) && x <= us
      modifies `ch, `us
      ensures Core(x, {}) && ch == c && us == old(us) - x
    {
      hide Listed, Tiled, Marked, Apart;
      ch, us := c, us - x;
    }

    lemma InTransit(r: Ref, x: set<Ref>)
      requires Core(x, {}) && r in x
      ensures r in next && r.page > 0 && r !in us
    {
      TileFacts(next, hd, pages, r);
    }

    /** The slices of c from the i-th on are still to be freed; hdr is the first of them. */
    ghost predicate Freeing(c: seq<Ref>, i: nat, hdr: Ref)
      reads this, space
    {
      && i <= |c| && Run(link, c, i) && hdr == (if i < |c| then c[i] else NONE)
      && Core(Slices(c, i), {}) && Chained(link, ch, own, us, open) && Filled(next, size, body, us, {})
    }

    /** One turn of the loop of free_data(). */
    method FreeTurn(ghost c: seq<Ref>, ghost i: nat, hdr: Ref) returns (follower: Ref)
      requires Freeing(c, i, hdr) && i < |c|
      modifies `next, `size, `link, `prev, `head, `fr, `ord, `hd, `pages, space
      ensures Freeing(c, i + 1, follower) && space.Used() - pages == old(space.Used() - pages)
    {
      hide Core, Chained, Filled, Run, Slices;
      ghost var n0, s0, l0 := next, size, link;
      ghost var x := Slices(c, i);
      RunStep(link, c, i);
      InTransit(hdr, x);
      follower := FreeSlice(hdr, x);
      ChainedFrame(l0, link, ch, own, us, open);
      FilledFrame(n0, s0, body, us, {}, next, size);
      RunKept(l0, link, c, i + 1, us + x - {hdr});
    }

    /** free_data(): the slices of record h become free, the other records stay. */
    method FreeData(h: Ref)
      requires Books({}) && h in ch && h !in open
      modifies `next, `size, `link, `prev, `head, `fr, `ord, `hd, `pages, `ch, `us, space
      ensures Books({}) && ch == old(ch) - {h} && Data() == old(Data()) - {h}
      ensures space.Used() - pages == old(space.Used() - pages)
    {
      hide Core, Chained, Filled, DataOf, Run;
      ghost var c := ch[h];
      ghost var x := Slices(c, 0);
      ChainSlices(link, ch, own, us, open, h);
      DropChain(link, ch, own, us, open, h, x);
      FilledSubset(next, size, body, us, us - x);
      DataWithout(ch, body, h);
      Unsettle(x, ch - {h});
      var hdr := h;
      ghost var i := 0;
      while hdr.page != 0
        invariant i <= |c| && Freeing(c, i, hdr)
        invariant space.Used() - pages == old(space.Used() - pages) && ch == old(ch) - {h}
        decreases |c| - i
      {
        hdr := FreeTurn(c, i, hdr);
        i := i + 1;
      }
      if i < |c| { FirstIsPage(c, i); }
      assert Slices(c, i) == {};
    }

    lemma FirstIsPage(c: seq<Ref>, i: nat)
      requires i < |c| && Freeing(c, i, c[i])
      ensures c[i].page > 0
    {
      hide Core, Chained, Filled;
      RunStep(link, c, i);
      InTransit(c[i], Slices(c, i));
    }

    // ---------- reading a record ----------

    lemma FirstSlice(h: Ref)
      requires Books({}) && h in ch && h !in open
      ensures ch[h] != [] && ch[h][0] == h
    {
      ChainSlices(link, ch, own, us, open, h);
    }

    /** Slice i of record h, and what follows it. */
    lemma SliceAt(h: Ref, i: nat)
      requires Books({}) && h in ch && h !in open && i < |ch[h]|
      ensures var c := ch[h];
              && c[0] == h && c[i].page > 0 && c[i] in body && c[i] in size && c[i] in link && c[i] in next
              && |body[c[i]]| == size[c[i]] > 0
              && (if i + 1 < |c| then link[c[i]] == c[i + 1] && c[i + 1].page > 0 else link[c[i]].page == 0)
              && Bytes(body, c[i..]) == body[c[i]] + Bytes(body, c[i + 1..])
    {
      hide Bytes, Listed, Marked, Apart, Tiled, Chained;
      var c := ch[h];
      ChainSlices(link, ch, own, us, open, h);
      assert c[i] in ch[h];
      assert FilledAt(next, size, body, c[i]);
      BytesHead(body, c, i);
      TileFacts(next, hd, pages, c[i]);
      if i + 1 < |c| {
        assert c[i + 1] in ch[h];
        TileFacts(next, hd, pages, c[i + 1]);
      }
    }

    /** The length words of a record stand in its first slice. */
    lemma HeadWords(h: Ref, key: seq<byte>, val: seq<byte>)
      requires Valid() && h in ch && Encodes(Data()[h], key, val)
      ensures h in body && |body[h]| >= 8 && FromLe32(body[h]) == 8 + |key| + |val| && FromLe32(body[h][4..]) == |key|
      ensures ch[h] != [] && ch[h][0] == h
      ensures var d := Bytes(body, ch[h][0..]);
              d[8..8 + |key|] == key && d[8 + |key|..] == val && |d| == 8 + |key| + |val|
    {
      hide Bytes, RecordBytes;
      var d := Data()[h];
      EncodesReads(d, key, val);
      ChainSlices(link, ch, own, us, open, h);
      SliceAt(h, 0);
      assert ch[h][0..] == ch[h];
      assert forall k | 0 <= k < 8 :: body[h][k] == d[k];
    }

    /** extract_data(): all bytes of the record, as many as its first word says. */
    method ExtractData(h: Ref, ghost key: seq<byte>, ghost val: seq<byte>) returns (data: seq<byte>)
      requires Valid() && h in ch && Encodes(Data()[h], key, val)
      ensures data == RecordBytes(key, val) && h in body && |body[h]| >= 8 && FromLe32(body[h]) == |data|
    {
      hide Bytes, Books, RecordBytes;
      ghost var c, i := ch[h], 0;
      var hdr := h;
      data := [];
      HeadWords(h, key, val);
      SliceAt(h, 0);
      assert c[0..] == c;
      while link[hdr].page != 0
        invariant i < |c| && hdr == c[i] && data + Bytes(body, c[i..]) == Bytes(body, c) && hdr in link && hdr in body
        decreases |c| - i
      {
        SliceAt(h, i);
        data := data + body[hdr];
        hdr := link[hdr];
        i := i + 1;
        SliceAt(h, i);
      }
      SliceAt(h, i);
      NextPrefix(body, c, i);
      data := data + body[hdr];
    }

    /** The slice in which the value begins, and the place in it. */
    method SeekValue(h: Ref, n: nat, ghost val: seq<byte>) returns (hdr: Ref, pass: nat, ghost i: nat)
      requires Valid() && h in ch && ch[h] != [] && n <= |Bytes(body, ch[h][0..])|
               && Bytes(body, ch[h][0..])[n..] == val && 0 < n
      ensures i < |ch[h]| && hdr == ch[h][i] && hdr in body && hdr in size && 0 < pass <= size[hdr] == |body[hdr]|
      ensures Bytes(body, ch[h][i..]) == body[hdr] + Bytes(body, ch[h][i + 1..])
      ensures body[hdr][pass..] + Bytes(body, ch[h][i + 1..]) == val
      ensures n == |Bytes(body, ch[h][..i])| + pass
    {
      hide Bytes, Books;
      ghost var c := ch[h];
      i, hdr, pass := 0, h, n;
      SliceAt(h, 0);
      NoBytes(body, c);
      while pass > size[hdr]
        invariant i < |c| && hdr == c[i] && hdr in size && hdr in body && |body[hdr]| == size[hdr]
        invariant 0 < pass <= |Bytes(body, c[i..])| && Bytes(body, c[i..])[pass..] == val
        invariant n == |Bytes(body, c[..i])| + pass
        decreases |c| - i
      {
        SliceAt(h, i);
        NextPrefix(body, c, i);
        pass := pass - size[hdr];
        hdr := link[hdr];
        i := i + 1;
        SliceAt(h, i);
      }
      SliceAt(h, i);
    }

    /** extract_val(): the value of the record. */
    method ExtractVal(h: Ref, ghost key: seq<byte>, ghost val: seq<byte>) returns (v: seq<byte>)
      requires Valid() && h in ch && Encodes(Data()[h], key, val)
      ensures v == val
    {
      hide Bytes, Books, Data, Encodes;
      HeadWords(h, key, val);
      var keyLen := FromLe32(body[h][4..]);
      ghost var c := ch[h];
      var hdr, pass; ghost var i;
      hdr, pass, i := SeekValue(h, keyLen + 8, val);
      v := body[hdr][pass..];
      SliceAt(h, i);
      while link[hdr].page != 0
        invariant i < |c| && hdr == c[i] && hdr in link && hdr in body && v + Bytes(body, c[i + 1..]) == val
        invariant i + 1 < |c| <==> link[hdr].page != 0
        decreases |c| - i
      {
        SliceAt(h, i);
        hdr := link[hdr];
        i := i + 1;
        SliceAt(h, i);
        v := v + body[hdr];
      }
      NextPrefix(body, c, i);
    }

    /** extract_key(): the key of the record. */
    method ExtractKey(h: Ref, ghost key: seq<byte>, ghost val: seq<byte>) returns (k: seq<byte>)
      requires Valid() && h in ch && Encodes(Data()[h], key, val)
      ensures k == key
    {
      hide Bytes, Books, Data, Encodes;
      HeadWords(h, key, val);
      SliceAt(h, 0);
      var copyLen, least := FromLe32(body[h][4..]), size[h] - 8;
      ghost var c, i := ch[h], 0;
      if copyLen <= least {
        k := body[h][8..8 + copyLen];
      } else {
        var hdr := h;
        k := body[h][8..];
        copyLen := copyLen - least;
        while copyLen > 0
          invariant i < |c| && hdr == c[i] && hdr in link && 0 <= copyLen <= |Bytes(body, c[i + 1..])|
          invariant k + Bytes(body, c[i + 1..])[..copyLen] == key
          decreases copyLen
        {
          SliceAt(h, i);
          NextPrefix(body, c, i);
          hdr := link[hdr];
          i := i + 1;
          SliceAt(h, i);
          least := if copyLen < size[hdr] then copyLen else size[hdr];
          k := k + body[hdr][..least];
          copyLen := copyLen - least;
        }
      }
    }

    /** The bytes of the key in the first slice, and what follows them. */
    lemma KeyStart(h: Ref, key: seq<byte>, val: seq<byte>)
      requires Valid() && h in ch && Encodes(Data()[h], key, val)
      ensures h in body && |body[h]| >= 8 && ch[h] != [] && ch[h][0] == h
      ensures var m := |body[h]| - 8;
              if |key| <= m then body[h][8..8 + |key|] == key
              else body[h][8..] == key[..m] && key[m..] <= Bytes(body, ch[h][1..])
    {
      hide Bytes, Books, Data, Encodes;
      HeadWords(h, key, val);
      SliceAt(h, 0);
      var d, m := Bytes(body, ch[h][0..]), |body[h]| - 8;
      if m < |key| {
        assert d[8..8 + |key|][..m] == body[h][8..];
        assert key[m..] == d[8 + m..8 + |key|];
        assert d[|body[h]|..] == Bytes(body, ch[h][1..]);
      } else {
        assert d[8..8 + |key|] == body[h][8..8 + |key|];
      }
    }

    /** The first c bytes of a key that begins in a slice. */
    lemma KeyBegins(slice: seq<byte>, key: seq<byte>, c: nat, least: nat)
      requires |slice| == least + 8 && c <= least && c <= |key|
      requires if |key| <= least then slice[8..8 + |key|] == key else slice[8..] == key[..least]
      ensures slice[8..][..c] == key[..c]
    {
      if |key| <= least {
        assert slice[8..][..c] == slice[8..8 + |key|][..c];
      } else {
        assert key[..least][..c] == key[..c];
      }
    }

    /** The part of compare() that reads the record: key against the key stored in record h. */
    method CompareRecord(h: Ref, key: seq<byte>, ghost k0: seq<byte>, ghost val: seq<byte>) returns (r: int)
      requires Valid() && h in ch && Encodes(Data()[h], k0, val) && |key| < KEYLIMIT && |k0| < KEYLIMIT
      ensures SameSign(r, Cmp(key, k0))
    {
      hide Bytes, Books, Data, Encodes, Cmp;
      HeadWords(h, k0, val);
      SliceAt(h, 0);
      KeyStart(h, k0, val);
      var stored, least := FromLe32(body[h][4..]), size[h] - 8;
      var cmpLen := if |key| < stored then |key| else stored;
      var first := body[h][8..];
      if cmpLen <= least {
        KeyBegins(body[h], k0, cmpLen, least);
        CmpCommon(key, k0, cmpLen);
        var comp := MemCmpFast(key, first, cmpLen);
        return if comp != 0 then comp else AsInt(|key| - stored);
      }
      assert first[..least] == first;
      StepCompares(key, k0, least, first);
      var comp := MemCmpFast(key, first, least);
      if comp != 0 {
        return comp;
      }
      r := CompareRest(h, key[least..], cmpLen - least, |key| - stored, k0[least..]);
    }

    /** The loop of compare() over the slices behind the first one. */
    method CompareRest(h: Ref, key: seq<byte>, n: nat, lengths: int, ghost rest: seq<byte>) returns (r: int)
      requires Valid() && h in ch && 0 < |ch[h]| && n == (if |key| < |rest| then |key| else |rest|)
               && lengths == |key| - |rest|
      requires rest <= Bytes(body, ch[h][1..]) && |key| < KEYLIMIT && |rest| < KEYLIMIT
      ensures SameSign(r, Cmp(key, rest))
    {
      hide Bytes, Books, Cmp;
      ghost var c, i, s := ch[h], 0, rest;
      var ddr, k, cmpLen := h, key, n;
      FirstSlice(h);
      SliceAt(h, 0);
      while cmpLen > 0
        invariant i < |c| && ddr == c[i] && ddr in link && cmpLen == (if |k| < |s| then |k| else |s|)
        invariant lengths == |k| - |s| && Cmp(key, rest) == Cmp(k, s) && (cmpLen > 0 ==> s <= Bytes(body, c[i + 1..]))
        decreases cmpLen
      {
        SliceAt(h, i);
        NextPrefix(body, c, i);
        ddr := link[ddr];
        i := i + 1;
        SliceAt(h, i);
        var least := if cmpLen < size[ddr] then cmpLen else size[ddr];
        StepCompares(k, s, least, body[ddr]);
        var comp := MemCmpFast(k, body[ddr], least);
        if comp != 0 {
          return comp;
        }
        k, s, cmpLen := k[least..], s[least..], cmpLen - least;
      }
      CmpCommon(k, s, 0);
      return AsInt(lengths);
    }

    // ---------- replacing a value ----------

    /** The chain of h ends behind its slice i; T holds the start of what was cut off, if anything was. */
    ghost method CutBehind(h: Ref, i: nat) returns (T: set<Ref>)
      requires Valid() && h in ch && i < |ch[h]|
      modifies `ch, `own, `open
      ensures Books({}) && open == {h} && h in ch && ch[h] == old(ch[h])[..i + 1]
      ensures T == (if i + 1 < |old(ch[h])| then {old(ch[h])[i + 1]} else {}) && T !! old(ch).Keys
              && ch.Keys == old(ch).Keys + T
      ensures Data() - {h} - T == old(Data()) - {h}
    {
      hide Core, Chained, Filled, DataOf, Bytes;
      if i + 1 < |ch[h]| {
        CutOff(link, ch, own, us, body, h, i + 1);
        var c := ch[h];
        T := {c[i + 1]};
        ch, own, open := ch[h := c[..i + 1]][c[i + 1] := c[i + 1..]], Tail(own, c, h, i + 1), {h};
      } else {
        OpenChain(link, ch, own, us, h);
        T := {};
        open := {h};
        assert ch[h] == ch[h][..i + 1];
        assert Data() - {h} - T == Data() - {h};
      }
    }

    /** What was cut off is freed and the end is marked. */
    method EndBehind(ghost h: Ref, hdr: Ref, ndr: Ref, ghost T: set<Ref>, ghost d: seq<byte>)
      requires Books({}) && open == {h} && h in ch && ch[h] != [] && ch[h][|ch[h]| - 1] == hdr && h in body
               && |body[h]| >= 8
      requires T == (if ndr.page != 0 then {ndr} else {}) && T <= ch.Keys && h !in T && Bytes(body, ch[h]) == d
      modifies `next, `size, `link, `prev, `head, `fr, `ord, `hd, `pages, `ch, `us, `open, space
      ensures Valid() && ch.Keys == old(ch).Keys - T && h in ch && Data() == (old(Data()) - {h} - T)[h := d]
      ensures h in old(ch) && ch[h] == old(ch)[h]
      ensures space.Used() - pages == old(space.Used() - pages)
    {
      hide Core, Chained, Filled, DataOf, Bytes;
      ghost var data := Data();
      if ndr.page != 0 {
        FreeData(ndr);
        assert ch[h] == old(ch[h]);
      }
      assert Data() == data - T;
      assert data - {h} - T == data - T - {h};
      DataAt(ch, body, h, data - {h} - T);
      CloseChain(link, ch, own, us, open, h);
      assert open - {h} == {};
      LastUsed(h);
      SetNext(hdr, NONE, {});
      open := {};
    }

    lemma LastUsed(h: Ref)
      requires Books({}) && h in ch && ch[h] != []
      ensures ch[h][|ch[h]| - 1] in us && ch[h][|ch[h]| - 1] !in fr
    {
      assert ChainOK(link, ch, own, us, open, h);
    }

    /** Slice r may have more room behind its bytes than is left there. */
    ghost predicate Loose(r: Ref)
      reads this, space
    {
      Books({r}) && open == {} && r in next && r in size && r in body && 0 < size[r] == |body[r]| <= Capacity(next, r)
    }

    /** Slice i of record h gets new bytes. */
    method Rewrite(ghost h: Ref, ghost i: nat, r: Ref, b: seq<byte>)
      requires Valid() && h in ch && i < |ch[h]| && r == ch[h][i] && r in next && 0 < |b| <= Capacity(next, r)
      modifies `size, `body
      ensures Loose(r) && r in body && body[r] == b && body - {r} == old(body) - {r} && size == old(size)[r := |b|]
      ensures Fits(next, r, |b|) ==> Valid()
      ensures Bytes(body, ch[h][..i + 1]) == Bytes(old(body), ch[h][..i]) + b
      ensures Data() - {h} == old(Data()) - {h}
    {
      hide Chained, Filled, DataOf, Bytes;
      ghost var c, b0 := ch[h], body;
      SliceOwned(h, i);
      FilledRewrite(next, size, body, us, r, b);
      OthersKept(link, ch, own, us, open, body, h, r, b, ch);
      assert c[..i + 1][..i] == c[..i];
      BytesLast(b0, c[..i + 1], b);
      body := body[r := b];
      size := size[r := |b|];
    }

    lemma SliceOwned(h: Ref, i: nat)
      requires Books({}) && h in ch && i < |ch[h]|
      ensures var r := ch[h][i]; r in us && r in own && own[r].h == h && r !in fr && r !in ch[h][..i]
    {
      assert ChainOK(link, ch, own, us, open, h);
    }

    /** adjust_data_head() of a used slice. */
    method AdjustUsed(r: Ref)
      requires Loose(r) && r in us && r in link
      modifies `next, `size, `link, `prev, `head, `fr, `ord, `hd, `pages, space
      ensures Valid() && r in link && link[r] == old(link[r]) && space.Used() - pages == old(space.Used() - pages)
    {
      hide Core, Chained, Filled, Capacity, Fits;
      ghost var n0, s0, l0 := next, size, link;
      AdjustDataHead(r, size[r], {});
      ChainedFrame(l0, link, ch, own, us, open);
      FilledFrame(n0, s0, body, us, {r}, next, size);
      FilledUp(next, size, body, us, r);
    }

    /** Up to slice i the record holds what d has before `rest`. */
    ghost predicate Over(h: Ref, i: nat, r: Ref, rest: seq<byte>, d: seq<byte>)
      reads this, space
    {
      && Valid() && h in ch && i < |ch[h]| && r == ch[h][i] && h in body && |body[h]| >= 8
      && Bytes(body, ch[h][..i + 1]) + rest == d
    }

    ghost predicate OverLoose(h: Ref, i: nat, r: Ref, rest: seq<byte>, d: seq<byte>)
      reads this, space
    {
      && Loose(r) && h in ch && i < |ch[h]| && r == ch[h][i] && h in body && |body[h]| >= 8
      && Bytes(body, ch[h][..i + 1]) + rest == d
    }

    /** Slice i becomes the last one; what it does not need and the slices behind it are freed. */
    method Trim(ghost h: Ref, ghost i: nat, hdr: Ref, ghost d: seq<byte>)
      requires OverLoose(h, i, hdr, [], d)
      modifies this, space
      ensures Valid() && ch.Keys == old(ch).Keys && h in ch && Data() == old(Data())[h := d]
      ensures h in old(ch) && i < |old(ch)[h]| && ch[h] == old(ch)[h][..i + 1]
      ensures space.Used() - pages == old(space.Used() - pages)
    {
      hide Books, DataOf, Bytes, Capacity, Loose;
      LooseSlice(h, i);
      var ndr := link[hdr];
      AdjustUsed(hdr);
      SliceAt(h, i);
      ghost var T := CutBehind(h, i);
      EndBehind(h, hdr, ndr, T, d);
    }

    lemma LooseSlice(h: Ref, i: nat)
      requires h in ch && i < |ch[h]| && Loose(ch[h][i])
      ensures ch[h][i] in us && ch[h][i] in link
    {
      ChainSlices(link, ch, own, us, open, h);
      assert ch[h][i] in ch[h];
    }

    lemma SliceFits(h: Ref, i: nat)
      requires Books({}) && h in ch && h !in open && i < |ch[h]|
      ensures var r := ch[h][i]; r in next && r in size && 0 < size[r] <= Capacity(next, r) && Fits(next, r, size[r])
    {
      SliceOwned(h, i);
      assert FilledAt(next, size, body, ch[h][i]);
    }

    method OverwriteNext(ghost h: Ref, ghost i: nat, hdr: Ref, v: seq<byte>, ghost d: seq<byte>)
      returns (ghost j: nat, r: Ref, w: seq<byte>)
      requires Over(h, i, hdr, v, d) && hdr in link && link[hdr].page != 0 && link[hdr] in size && size[link[hdr]] < |v|
      modifies `size, `body
      ensures Over(h, j, r, w, d) && 0 < |w| < |v| && Data() - {h} == old(Data()) - {h} && j == i + 1
              && r == old(link[hdr]) && size == old(size)
    {
      hide Books, DataOf, Bytes, Capacity;
      SliceAt(h, i);
      j, r := i + 1, link[hdr];
      SliceAt(h, j);
      SliceFits(h, j);
      SliceOwned(h, j);
      var n := size[r];
      ghost var b0 := body;
      Rewrite(h, j, r, v[..n]);
      assert size == old(size);
      assert h in body - {r} && h in b0 - {r};
      w := v[n..];
      assert v == v[..n] + w;
    }

    /** Whole slices behind hdr are overwritten while the value is longer than they are. */
    method Overrun(ghost h: Ref, ghost i: nat, hdr: Ref, v: seq<byte>, ghost d: seq<byte>)
      returns (ghost j: nat, r: Ref, w: seq<byte>)
      requires Over(h, i, hdr, v, d) && v != []
      modifies `size, `body
      ensures Over(h, j, r, w, d) && w != [] && Data() - {h} == old(Data()) - {h} && i <= j && size == old(size)
      ensures j + 1 < |ch[h]| && ch[h][j + 1] in size ==> size[ch[h][j + 1]] != PAGEMAXSPARE || |w| <= PAGEMAXSPARE
    {
      hide Books, DataOf, Bytes, Capacity;
      j, r, w := i, hdr, v;
      SliceAt(h, j);
      if link[r].page != 0 { SliceAt(h, j + 1); }
      while link[r].page != 0 && size[link[r]] < |w| && size[link[r]] == PAGEMAXSPARE
        invariant Over(h, j, r, w, d) && w != [] && Data() - {h} == old(Data()) - {h} && i <= j && size == old(size)
        invariant r in link && (link[r].page != 0 ==> link[r] in size)
        decreases |w|
      {
        j, r, w := OverwriteNext(h, j, r, w, d);
        SliceAt(h, j);
        if link[r].page != 0 { SliceAt(h, j + 1); }
      }
      SliceAt(h, j);
    }

    /** The chain is open behind its full slice i. */
    ghost method OpenEnd(h: Ref, i: nat, hdr: Ref, v: seq<byte>, d: seq<byte>) returns (T: set<Ref>)
      requires Over(h, i, hdr, v, d)
      modifies `ch, `own, `open
      ensures Filling(h, hdr, 0, v, d) && T !! old(ch).Keys && ch.Keys == old(ch).Keys + T
              && Data() - {h} - T == old(Data()) - {h}
      ensures T == (if i + 1 < |old(ch[h])| then {old(ch[h])[i + 1]} else {}) && ch[h] == old(ch[h])[..i + 1]
    {
      hide Books, DataOf, Bytes;
      SliceAt(h, i);
      SliceFits(h, i);
      T := CutBehind(h, i);
      SliceOwned(h, i);
      OneOpen(hdr);
    }

    lemma OneOpen(r: Ref)
      requires Books({})
      ensures Books({r})
    {
      hide Core, Chained;
    }

    /** One more slice behind the full slice r. */
    method OneMore(ghost h: Ref, r: Ref, v: seq<byte>, ghost d: seq<byte>) returns (q: Ref, w: seq<byte>)
      requires Filling(h, r, 0, v, d) && v != []
      modifies this, space
      ensures Filling(h, q, 0, w, d) && |w| < |v| && ch.Keys == old(ch).Keys && Data() - {h} == old(Data()) - {h}
      ensures h in old(ch) && h in ch && old(ch)[h] < ch[h]
      ensures space.Used() - pages == old(space.Used() - pages)
    {
      hide Books, DataOf, Bytes, Capacity;
      q := NextSlice(h, r, |v|);
      var n := size[q];
      w := v[n..];
      assert v == v[..n] + w;
      Put(h, q, v[..n], n, w, d);
    }

    lemma Filled0(h: Ref, r: Ref, d: seq<byte>)
      requires Filling(h, r, 0, [], d)
      ensures Books({}) && open == {h} && h in ch && ch[h] != [] && ch[h][|ch[h]| - 1] == r && h in body
              && |body[h]| >= 8
      ensures Bytes(body, ch[h]) == d
    {
      hide Core, Chained, Bytes;
      assert FilledAt(next, size, body, r);
      FilledUp(next, size, body, us, r);
      assert Bytes(body, ch[h]) + [] == Bytes(body, ch[h]);
    }

    /** The rest of the value goes into new slices behind hdr; the slices that were there are freed. */
    method Extend(ghost h: Ref, ghost i: nat, hdr: Ref, v: seq<byte>, ghost d: seq<byte>)
      requires Over(h, i, hdr, v, d) && v != []
      modifies this, space
      ensures Valid() && ch.Keys == old(ch).Keys && h in ch && Data() == old(Data())[h := d]
      ensures space.Used() - pages == old(space.Used() - pages)
      ensures h in old(ch) && i < |old(ch)[h]| && old(ch)[h][..i + 1] < ch[h]
    {
      hide Books, DataOf, Bytes, Capacity, Writing, Filling;
      SliceAt(h, i);
      var ndr, r, w := link[hdr], hdr, v;
      ghost var T := OpenEnd(h, i, hdr, v, d);
      ghost var data := Data();
      while w != []
        invariant Filling(h, r, 0, w, d)
        invariant h in ch && old(ch)[h][..i + 1] <= ch[h] && (|w| < |v| ==> i + 1 < |ch[h]|) && |w| <= |v|
        invariant T <= ch.Keys && h !in T && ch.Keys == old(ch).Keys + T && Data() - {h} == data - {h}
        invariant space.Used() - pages == old(space.Used() - pages)
        decreases |w|
      {
        r, w := OneMore(h, r, w, d);
      }
      Filled0(h, r, d);
      EndBehind(h, r, ndr, T, d);
    }

    /** The first length word of the record. */
    method WriteTotal(h: Ref, n: nat, ghost key: seq<byte>, ghost val: seq<byte>)
      requires Valid() && h in ch && Encodes(Data()[h], key, val)
      modifies `size, `body
      ensures Valid() && h in body && |body[h]| >= 8 && Data() - {h} == old(Data()) - {h} && ch[h] != []
              && size == old(size)
      ensures Bytes(body, ch[h][0..]) == Le32(n) + Le32(|key|) + key + val
    {
      hide Books, DataOf, Bytes, Capacity, Le32, RecordBytes;
      HeadWords(h, key, val);
      SliceAt(h, 0);
      SliceFits(h, 0);
      HeadOnce(h);
      ghost var b0, c := body, ch[h];
      assert Bytes(b0, c[0..]) == RecordBytes(key, val) by { WholeRecord(h, key, val); }
      Rewrite(h, 0, h, Le32(n) + body[h][4..]);
      assert size == old(size);
      TotalWritten(b0, body, c, n, key, val);
    }

    lemma WholeRecord(h: Ref, key: seq<byte>, val: seq<byte>)
      requires h in ch && Encodes(Data()[h], key, val)
      ensures Bytes(body, ch[h][0..]) == RecordBytes(key, val)
    {
      assert ch[h][0..] == ch[h];
      assert |RecordBytes(key, val)| >= 8;
    }

    lemma HeadOnce(h: Ref)
      requires Books({}) && h in ch && h !in open && |ch[h]| > 0
      ensures ch[h][0] == h && h !in ch[h][1..]
    {
      hide Core, Filled;
      ChainSlices(link, ch, own, us, open, h);
    }

    /** Slice i keeps its first bytes and is filled on with `piece`. */
    method PutAt(ghost h: Ref, ghost i: nat, hdr: Ref, pass: nat, piece: seq<byte>, ghost rest: seq<byte>,
        ghost d: seq<byte>)
      requires Valid() && h in ch && i < |ch[h]| && hdr == ch[h][i] && hdr in body && pass <= |body[hdr]|
               && (i == 0 ==> 8 <= pass)
      requires hdr in next && 0 < pass + |piece| <= Capacity(next, hdr) && h in body && |body[h]| >= 8
      requires Bytes(body, ch[h][..i]) + body[hdr][..pass] + piece + rest == d
      modifies `size, `body
      ensures OverLoose(h, i, hdr, rest, d) && Data() - {h} == old(Data()) - {h}
              && size == old(size)[hdr := pass + |piece|]
      ensures Fits(next, hdr, pass + |piece|) ==> Over(h, i, hdr, rest, d)
    {
      hide Books, DataOf, Bytes, Capacity, Fits;
      SliceOwned(h, i);
      HeadOnce(h);
      ghost var b0 := body;
      Rewrite(h, i, hdr, body[hdr][..pass] + piece);
      assert i > 0 ==> h in body - {hdr} && h in b0 - {hdr};
      assert b0[hdr][..pass] + piece + rest == b0[hdr][..pass] + (piece + rest);
    }

    /** The part of put_replace() that reuses the slices of the record. */
    method ReplaceValue(h: Ref, key: seq<byte>, val: seq<byte>, ghost was: seq<byte>)
      requires Valid() && h in ch && ch[h] != [] && h in body && |body[h]| >= 8
      requires Bytes(body, ch[h][0..]) == Le32(8 + |key| + |val|) + Le32(|key|) + key + was
      modifies this, space
      ensures Valid() && ch.Keys == old(ch).Keys && h in ch && Data() == old(Data())[h := RecordBytes(key, val)]
      ensures space.Used() - pages == old(space.Used() - pages)
      ensures exists m :: Keeps(old(ch)[h], old(size), ch[h], m)
    {
      hide Books, DataOf, Bytes, Le32;
      ghost var data := Data();
      ghost var d, H, c := RecordBytes(key, val), Le32(8 + |key| + |val|) + Le32(|key|) + key, ch[h];
      var hdr, pass; ghost var i;
      hdr, pass, i := SeekValue(h, |key| + 8, was);
      PrefixIs(body, c, i, pass, H, was);
      SliceFits(h, i);
      NoBytes(body, c);
      var capacity := Capacity(next, hdr) - pass;
      if |val| <= capacity {
        PutAt(h, i, hdr, pass, val, [], d);
        SameElsewhere(Data(), data, h, d);
        Trim(h, i, hdr, d);
        assert Keeps(old(ch)[h], old(size), ch[h], i + 1);
      } else {
        var v := val[capacity..];
        PutAt(h, i, hdr, pass, val[..capacity], v, d);
        ghost var first := i;
        i, hdr, v := Overrun(h, i, hdr, v, d);
        SameElsewhere(Data(), data, h, d);
        NotWholeBehind(h, first, i, |v|, old(size), size[c[first]]);
        ReplaceTail(h, i, hdr, v, d);
        assert Keeps(c, old(size), ch[h], i + 1) || Keeps(c, old(size), ch[h], i + 2);
      }
    }

    /** The slice behind slice j is shorter than a page, if the n bytes that are left do not fit into it. */
    lemma NotWholeBehind(h: Ref, i: nat, j: nat, n: nat, was: map<Ref, nat>, k: nat)
      requires Valid() && h in ch && i <= j < |ch[h]|
      requires size == was[ch[h][i] := k]
      requires j + 1 < |ch[h]| && ch[h][j + 1] in size ==> size[ch[h][j + 1]] != PAGEMAXSPARE || n <= PAGEMAXSPARE
      ensures var c := ch[h];
              j + 1 < |c| ==> c[j + 1] in next && (n > Capacity(next, c[j + 1]) ==>
                                                 c[j + 1] in was && was[c[j + 1]] < PAGEMAXSPARE)
    {
      if j + 1 < |ch[h]| {
        SliceFits(h, j + 1);
        SliceOwned(h, j + 1);
        var r := ch[h][j + 1];
        assert ch[h][..j + 1][i] == ch[h][i];
        NoLonger(r);
      }
    }

    lemma NoLonger(r: Ref)
      requires Valid() && r in us
      ensures r in next && Capacity(next, r) <= PAGEMAXSPARE
    {
      TileFacts(next, hd, pages, r);
    }

    /** What is left of the value goes into the next slice if it fits there, else into new ones. */
    method ReplaceTail(h: Ref, ghost i: nat, hdr: Ref, v: seq<byte>, ghost d: seq<byte>)
      requires Over(h, i, hdr, v, d) && v != []
      modifies this, space
      ensures Valid() && ch.Keys == old(ch).Keys && h in ch && Data() == old(Data())[h := d]
      ensures space.Used() - pages == old(space.Used() - pages)
      ensures h in old(ch) && i < |old(ch)[h]| && if i + 1 < |old(ch)[h]| && old(ch)[h][i + 1] in old(next) &&
              |v| <= Capacity(old(next), old(ch)[h][i + 1]) then ch[h] == old(ch)[h][..i + 2]
              else old(ch)[h][..i + 1] < ch[h]
    {
      hide Books, DataOf, Bytes;
      SliceAt(h, i);
      var ndr := link[hdr];
      if ndr.page != 0 {
        SliceAt(h, i + 1);
        SliceFits(h, i + 1);
        if |v| <= Capacity(next, ndr) {
          NextPrefix(body, ch[h], i);
          ghost var data := Data();
          PutAt(h, i + 1, ndr, 0, v, [], d);
          SameElsewhere(Data(), data, h, d);
          Trim(h, i + 1, ndr, d);
          return;
        }
      }
      Extend(h, i, hdr, v, d);
    }

    /** put_replace(): record h gets another value; the record may move, the other records stay. */
    method PutReplace(h: Ref, key: seq<byte>, val: seq<byte>, ghost was: seq<byte>) returns (at: Ref, moved: bool)
      requires Valid() && h in ch && Encodes(Data()[h], key, was) && 8 + |key| + |val| < LIMIT
      modifies this, space
      ensures Valid() && at in ch && at.page > 0 && ch.Keys == old(ch).Keys - {h} + {at}
              && (at == h || at !in old(ch)) && (!moved ==> at == h)
      ensures var n := 8 + |key| + |val|;
              && h in old(next)
              && (moved <==> old(next)[h] - h.pos - 12 < if n <= 4076 then n else 4076)
      ensures !moved ==> exists m :: Keeps(old(ch)[h], old(size), ch[h], m)
      ensures Data() == (old(Data()) - {h})[at := RecordBytes(key, val)]
      ensures space.Used() - pages == old(space.Used() - pages)
    {
      hide Books, DataOf, Bytes, RecordBytes, Le32;
      HeadWords(h, key, was);
      SliceAt(h, 0);
      var n := |key| + 8 + |val|;
      var capacity := Capacity(next, h);
      if (n <= PAGEMAXSPARE && capacity < n) || (n > PAGEMAXSPARE && capacity < PAGEMAXSPARE) {
        FreeData(h);
        at := CreateNode(key, val);
        return at, true;
      }
      WriteTotal(h, n, key, was);
      at, moved := h, false;
      ReplaceValue(h, key, val, was);
    }

    // ---------- what becomes of every byte ----------

    /** Slice r is place k of record h. */
    ghost predicate PartOf(r: Ref, h: Ref, k: int)
      reads `ch
    {
      h in ch && 0 <= k < |ch[h]| && ch[h][k] == r
    }

    /** Every byte of a data page lies in exactly one slice. */
    lemma ByteInOneSlice(p: nat, o: nat)
      requires Valid() && p in pages && o < PAGEEND
      ensures exists r :: r in hd && r.page == p && Holds(next, r, o)
      ensures forall a, b | a in hd && b in hd && a.page == b.page == p && Holds(next, a, o) && Holds(next, b, o) ::
              a == b
    {
      OneSlice(next, hd, pages, p, o);
    }

    /** A free slice is on the list of its bucket and has no free neighbour behind it. */
    lemma FreeSliceListed(r: Ref)
      requires Valid() && r in hd && r in size && size[r] == 0
      ensures r in next && (exists n: nat :: OnListOf(L(), Bucket(next, r), r, n))
      ensures next[r] - r.pos < 4088 && Bucket(next, r) == (next[r] - r.pos - 12) / 8
      ensures Following(next, r) in hd ==> Following(next, r) in size && size[Following(next, r)] != 0
    {
      hide Tiled, Listed, Chained, Filled;
      NotWhole(r);
      OnItsList(next, L(), fr, r, set q | q in fr && q in ord && r in ord && ord[r] < ord[q]);
    }

    lemma NotWhole(r: Ref)
      requires Listed(next, L(), fr) && r in fr
      ensures r in next && Capacity(next, r) < PAGEMAXSPARE
    {
      assert FragOK(next, L(), fr, r);
    }

    /** A used slice takes, with its header, less than 44 bytes more than it holds. */
    lemma UsedSliceFits(r: Ref)
      requires Valid() && r in hd && r in size && size[r] != 0
      ensures r in next && r in body && |body[r]| == size[r] && size[r] + 12 <= next[r] - r.pos < size[r] + 44
    {
      hide Tiled, Listed, Apart, Chained;
      assert FilledAt(next, size, body, r);
    }

    /** Every data page holds bytes of a record. */
    lemma PageInUse(p: nat) returns (r: Ref)
      requires Valid() && p in pages
      ensures r in hd && r.page == p && r in size && size[r] != 0
    {
      r := Ref(p, 0);
      TileFacts(next, hd, pages, r);
      hide Tiled, Listed, Chained, Filled;
      if size[r] == 0 {
        NotWhole(r);
        r := Following(next, r);
      }
    }

    /** A used slice belongs to exactly one record, at one place. */
    lemma UsedSliceOwned(r: Ref)
      requires Valid() && r in hd && r in size && size[r] != 0
      ensures exists h, k :: PartOf(r, h, k)
      ensures forall h, k, g, m | PartOf(r, h, k) && PartOf(r, g, m) :: h == g && k == m
    {
      hide Tiled, Listed, Apart, Filled;
      assert r in us && Owned(ch, own, r);
      assert PartOf(r, own[r].h, own[r].k);
      forall h, k, g, m | PartOf(r, h, k) && PartOf(r, g, m)
        ensures h == g && k == m
      {
        assert ChainOK(link, ch, own, us, open, h) && ChainOK(link, ch, own, us, open, g);
        assert own[ch[h][k]] == Owner(h, k) && own[ch[g][m]] == Owner(g, m);
      }
    }
  }
}
