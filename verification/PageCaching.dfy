/** The page cache of `znet/common/db.h`: hash, rehash, order of use with its wrapping counter, eviction, and the
    snapshot that a checkpoint persists. */
module PageCaching {
  import opened Sequences
  import opened CacheModel

  const LRU_LIMIT := 0x1_0000_0000      // lru_t is an unsigned int
  const MAGIC := 0                      // the magic page, which is never in the hash

  // ---------- contents ----------

  /** The content of a page: the cached one if there is one. */
  ghost function Contents(resident: set<Index>, layout: map<Index, Layout>,
      disk: map<Index, Layout>): map<Index, Layout>
    requires resident <= layout.Keys
  {
    map p | p in resident + disk.Keys :: if p in resident then layout[p] else disk[p]
  }

  /** A clean page that is not waiting to be persisted is the same on disk. */
  ghost predicate Backed(resident: set<Index>, layout: map<Index, Layout>, dirty: map<Index, bool>,
      disk: map<Index, Layout>, held: set<Index>)
  {
    && resident <= layout.Keys && resident <= dirty.Keys
    && forall p {:trigger dirty[p]} | p in resident && !dirty[p] && p !in held :: p in disk && disk[p] == layout[p]
  }

  /** The copies are those of the moment of the snapshot, the other pages of that moment are on disk, and a page
      that is held and clean is still like its copy. */
  ghost predicate Frozen(resident: set<Index>, layout: map<Index, Layout>, dirty: map<Index, bool>,
      disk: map<Index, Layout>, held: set<Index>, snap: map<Index, Layout>, frozen: map<Index, Layout>)
  {
    && held <= resident && held <= snap.Keys && resident <= layout.Keys && resident <= dirty.Keys
    && (forall p {:trigger snap[p]} {:trigger dirty[p]} | p in held ::
       p in frozen && snap[p] == frozen[p] && (!dirty[p] ==> layout[p] == snap[p]))
    && forall p {:trigger frozen[p]} | p in frozen && p !in held :: p in disk && disk[p] == frozen[p]
  }

  /** While a snapshot is taken, the dirty pages that it does not have yet may differ from the disk. */
  ghost predicate Freezing(resident: set<Index>, layout: map<Index, Layout>, dirty: map<Index, bool>,
      disk: map<Index, Layout>, held: set<Index>, snap: map<Index, Layout>, frozen: map<Index, Layout>)
  {
    && Backed(resident, layout, dirty, disk, held) && held <= resident && held <= snap.Keys
    && frozen == Contents(resident, layout, disk)
    && forall p {:trigger snap[p]} {:trigger dirty[p]} | p in held :: snap[p] == layout[p]
  }

  lemma FreezingStarts(resident: set<Index>, layout: map<Index, Layout>, dirty: map<Index, bool>,
      disk: map<Index, Layout>, snap: map<Index, Layout>)
    requires Backed(resident, layout, dirty, disk, {})
    ensures Freezing(resident, layout, dirty, disk, {}, snap, Contents(resident, layout, disk))
  {
  }

  lemma FreezingTakes(resident: set<Index>, layout: map<Index, Layout>, dirty: map<Index, bool>,
      disk: map<Index, Layout>, held: set<Index>, snap: map<Index, Layout>, frozen: map<Index, Layout>, p: Index)
    requires Freezing(resident, layout, dirty, disk, held, snap, frozen) && p in resident
    ensures p in dirty && p in layout
    ensures dirty[p] ==> Freezing(resident, layout, dirty[p := false], disk, held + {p}, snap[p := layout[p]], frozen)
  {
  }

  lemma FreezingDirty(resident: set<Index>, layout: map<Index, Layout>, dirty: map<Index, bool>,
      disk: map<Index, Layout>, held: set<Index>, snap: map<Index, Layout>, frozen: map<Index, Layout>, p: Index)
    requires Freezing(resident, layout, dirty, disk, held, snap, frozen)
    ensures Freezing(resident, layout, dirty[p := true], disk, held, snap, frozen)
  {
  }

  lemma FreezingEnds(resident: set<Index>, layout: map<Index, Layout>, dirty: map<Index, bool>,
      disk: map<Index, Layout>, held: set<Index>, snap: map<Index, Layout>, frozen: map<Index, Layout>)
    requires Freezing(resident, layout, dirty, disk, held, snap, frozen)
             && forall p {:trigger dirty[p]} | p in resident && p in dirty :: !dirty[p]
    ensures Backed(resident, layout, dirty, disk, held) && Frozen(resident, layout, dirty, disk, held, snap, frozen)
    ensures frozen == Contents(resident, layout, disk)
  {
    forall p | p in frozen && p !in held
      ensures p in disk && disk[p] == frozen[p]
    {
      if p in resident { assert !dirty[p]; }
    }
  }

  /** The dirty ones of the pages looked at are held, and clean now. */
  ghost predicate Copied(dirty: map<Index, bool>, was: map<Index, bool>, held: set<Index>, done: seq<Index>) {
    && dirty.Keys == was.Keys && (forall p {:trigger dirty[p]} | p in dirty :: dirty[p] == (was[p] && p !in done))
    && forall p {:trigger p in held} :: p in held <==> p in was && was[p] && p in done
  }

  lemma CopiedNone(dirty: map<Index, bool>, pages: seq<Index>)
    ensures Copied(dirty, dirty, {}, pages[..0])
  {
  }

  lemma CopiedNext(dirty: map<Index, bool>, was: map<Index, bool>, held: set<Index>, pages: seq<Index>, k: nat)
    requires k < |pages| && pages[k] in was && Copied(dirty, was, held, pages[..k])
    ensures pages[k] in dirty && Copied(dirty[pages[k] := false], was, if dirty[pages[k]] then held + {pages[k]}
            else held, pages[..k + 1])
  {
    assert pages[..k + 1] == pages[..k] + [pages[k]];
  }

  lemma CopiedAll(dirty: map<Index, bool>, was: map<Index, bool>, held: set<Index>, pages: seq<Index>,
      cached: set<Index>)
    requires Copied(dirty, was, held, pages) && (forall p {:trigger p in pages} {:trigger p in cached} ::
             p in pages <==> p in cached)
    requires MAGIC in was && MAGIC !in cached && cached <= was.Keys
    ensures dirty.Keys == was.Keys && dirty[MAGIC] == was[MAGIC] && MAGIC !in held
    ensures forall p {:trigger p in held} :: p in held <==> p in cached && was[p]
    ensures forall p {:trigger dirty[p]} | p in cached :: !dirty[p]
  {
    assert MAGIC !in pages;
  }

  lemma SomeHeld(was: map<Index, bool>, held: set<Index>, cached: set<Index>, snapshot: seq<Index>)
    requires held == (set p | p in snapshot) && cached <= was.Keys && forall p {:trigger p in held} ::
             p in held <==> p in cached && was[p]
    ensures held != {} <==> exists p {:trigger was[p]} :: p in cached && was[p]
  {
    if snapshot != [] {
      var p := snapshot[0];
      assert p in held && was[p];
    }
    if p :| p in cached && was[p] { assert p in held; }
  }

  /** While the copies are written: what is still held as before, the others on disk as they were. */
  ghost predicate Writing(resident: set<Index>, layout: map<Index, Layout>, dirty: map<Index, bool>,
      disk: map<Index, Layout>, held: set<Index>, snap: map<Index, Layout>, frozen: map<Index, Layout>)
  {
    Backed(resident, layout, dirty, disk, held) && Frozen(resident, layout, dirty, disk, held, snap, frozen)
  }

  lemma PersistStarts(resident: set<Index>, layout: map<Index, Layout>, dirty: map<Index, bool>,
      disk: map<Index, Layout>, held: set<Index>, snap: map<Index, Layout>, frozen: map<Index, Layout>)
    requires Backed(resident, layout, dirty, disk, held) && Frozen(resident, layout, dirty, disk, held, snap, frozen)
    ensures Writing(resident, layout, dirty, disk, held, snap, frozen)
  {
  }

  /** A copy is written: its page is what it was at the snapshot, and nobody sees a difference. */
  lemma Written(resident: set<Index>, layout: map<Index, Layout>, dirty: map<Index, bool>, disk: map<Index, Layout>,
      held: set<Index>, snap: map<Index, Layout>, frozen: map<Index, Layout>, p: Index, rest: set<Index>)
    requires Writing(resident, layout, dirty, disk, held, snap, frozen) && held == rest + {p}
    ensures p in snap && Writing(resident, layout, dirty, disk[p := snap[p]], rest, snap, frozen)
    ensures Contents(resident, layout, disk[p := snap[p]]) == Contents(resident, layout, disk)
  {
    assert p in held;
    var now := disk[p := snap[p]];
    forall x | x in frozen && x !in rest
      ensures x in now && now[x] == frozen[x]
    {
      if x != p { assert x !in held; }
    }
  }

  lemma PersistEnds(resident: set<Index>, layout: map<Index, Layout>, dirty: map<Index, bool>,
      disk: map<Index, Layout>, snap: map<Index, Layout>, frozen: map<Index, Layout>)
    requires Writing(resident, layout, dirty, disk, {}, snap, frozen)
    ensures Backed(resident, layout, dirty, disk, {}) && Frozen(resident, layout, dirty, disk, {}, snap, frozen)
    ensures forall p {:trigger frozen[p]} | p in frozen :: p in disk && disk[p] == frozen[p]
  {
  }

  class PageCache {
    var bucket: seq<seq<Index>>             // the chains of PageHash, with the pages known by their index
    var size: nat                           // _size
    var lru: int
    var cacheHigh: nat
    var cacheLow: nat
    var number: map<Index, int>             // Page::lru
    var dirty: map<Index, bool>             // the DIRTY bit of Page::snapshot
    var layout: map<Index, Layout>          // Page::layout
    var snap: map<Index, Layout>            // the page copy that Page::snapshot points to
    var snapshot: seq<Index>                // the pages of the snapshot
    var disk: map<Index, Layout>            // the file
    ghost var cached: set<Index>            // the pages of the hash
    ghost var q: seq<Index>                 // the same, in the order of use
    ghost var held: set<Index>              // the pages of a snapshot that is not persisted yet
    ghost var frozen: map<Index, Layout>    // the contents at the moment of the snapshot

    ghost predicate Ranked()
      reads `bucket, `size, `lru, `number, `cached, `q
    {
      && Hashed(bucket, cached) && Recency(q, number, cached, lru) && 0 <= lru < LRU_LIMIT && size == |q|
      && MAGIC !in cached && Doubled(|bucket|)
    }

    ghost predicate Valid()
      reads this
    {
      Ranked() && Backed(Resident(), layout, dirty, disk, held)
          && Frozen(Resident(), layout, dirty, disk, held, snap, frozen)
    }

    /** The pages that have a frame in memory. */
    ghost function Resident(): set<Index>
      reads `cached
    {
      cached + {MAGIC}
    }

    /** What the users of the pages see. */
    ghost function State(): map<Index, Layout>
      reads this
      requires Valid()
    {
      Contents(Resident(), layout, disk)
    }

    /** A cache for a file, with room for `high` pages; the magic page is read if there is one, or is a new one. */
    constructor (file: map<Index, Layout>, newMagic: Layout, high: nat, low: nat)
      ensures Valid() && disk == file && held == {} && cached == {} && snapshot == [] && q == []
      ensures cacheHigh == high && cacheLow == low && |bucket| >= high && (|bucket| == 16 || |bucket| < 2 * high)
      ensures dirty == map[MAGIC := true]
      ensures State() == file[MAGIC := if MAGIC in file then file[MAGIC] else newMagic]
    {
      var n := Buckets(high);
      bucket, size, lru, cacheHigh, cacheLow := seq(n, _ => []), 0, 0, high, low;
      number, disk, snap, snapshot := map[], file, map[], [];
      layout, dirty := map[MAGIC := if MAGIC in file then file[MAGIC] else newMagic], map[MAGIC := true];
      cached, q, held, frozen := {}, [], {}, map[];
    }

    /** __load(): the page is in memory afterwards, unless there is none. */
    method Load(idx: Index) returns (ok: bool)
      requires Valid() && idx != MAGIC && size + 1 < LRU_LIMIT
      modifies `bucket, `size, `lru, `number, `cached, `q, `layout, `dirty
      ensures Valid() && State() == old(State()) && (ok <==> idx in old(State()))
      ensures cached == if ok then old(cached) + {idx} else old(cached)
      ensures q == if ok then Used(old(q), idx) else old(q)
      ensures dirty == if ok && idx !in old(cached) then old(dirty)[idx := false] else old(dirty)
    {
      hide Hashed, Recency, Backed, Frozen, Contents, Used;
      ContentsHas(Resident(), layout, dirty, disk, held, idx);
      ok := Find(idx);
      if ok {
        assert cached == cached + {idx};
      } else if idx in disk {
        LoadKeeps(Resident(), layout, dirty, disk, held, snap, frozen, idx);
        layout := layout[idx := disk[idx]];
        dirty := dirty[idx := false];
        Insert(idx);
        ok := true;
        assert Resident() == old(Resident()) + {idx};
      }
    }

    /** set_dirty() of a page in memory; Wload() is __load() and this. */
    method SetDirty(idx: Index)
      requires Valid() && idx in Resident()
      modifies `dirty
      ensures Valid() && State() == old(State()) && dirty == old(dirty)[idx := true]
    {
      DirtyKeeps(Resident(), layout, dirty, disk, held, snap, frozen, idx);
      hide Ranked, Backed, Frozen, Contents;
      dirty := dirty[idx := true];
    }

    /** A user writes into a page that was set dirty. */
    method Write(idx: Index, content: Layout)
      requires Valid() && idx in Resident() && idx in dirty && dirty[idx]
      modifies `layout
      ensures Valid() && State() == old(State())[idx := content]
    {
      WriteKeeps(Resident(), layout, dirty, disk, held, snap, frozen, idx, content);
      hide Ranked, Backed, Frozen, Contents;
      layout := layout[idx := content];
    }

    /** A page that the file does not have yet, as alloc() makes it. */
    method NewPage(idx: Index, zero: Layout)
      requires Valid() && idx != MAGIC && idx !in State() && size + 1 < LRU_LIMIT
      modifies `bucket, `size, `lru, `number, `cached, `q, `layout, `dirty
      ensures Valid() && State() == old(State())[idx := zero] && cached == old(cached) + {idx}
    {
      hide Hashed, Recency, Backed, Frozen, Contents, Used;
      ContentsHas(Resident(), layout, dirty, disk, held, idx);
      NewKeeps(Resident(), layout, dirty, disk, held, snap, frozen, idx, zero);
      layout := layout[idx := zero];
      dirty := dirty[idx := true];
      Insert(idx);
      assert Resident() == old(Resident()) + {idx};
    }

    /** cleanup() outside of a snapshot: only clean pages go, and nobody sees a difference. */
    method CleanupPages()
      requires Valid() && held == {} && size < LRU_LIMIT
      modifies `bucket, `size, `lru, `number, `cached, `q
      ensures Valid() && State() == old(State()) && cached <= old(cached) && forall p | p in old(cached)
              && p !in cached :: !dirty[p]
      ensures q == if old(size) <= cacheHigh then old(q) else Evicted(old(q), dirty, old(size) - cacheLow)
    {
      BackedKeys(Resident(), layout, dirty, disk, held);
      hide Hashed, Backed, Frozen, Contents, Evicted;
      Cleanup();
      EvictedClean(old(q), old(number), old(cached), old(lru), dirty, old(size) - cacheLow, q, number, cached, lru);
      GoneKeeps(old(Resident()), layout, dirty, disk, snap, frozen, Resident());
    }

    /** set_snapshot(): a dirty page is copied and counts as clean from then on. */
    method SetSnapshot(p: Index) returns (taken: bool)
      requires p in Resident() && Freezing(Resident(), layout, dirty, disk, held, snap, frozen)
      modifies `snap, `dirty, `held
      ensures Freezing(Resident(), layout, dirty, disk, held, snap, frozen) && taken == old(dirty)[p]
      ensures dirty == old(dirty)[p := false] && held == if taken then old(held) + {p} else old(held)
    {
      FreezingTakes(Resident(), layout, dirty, disk, held, snap, frozen, p);
      hide Freezing;
      taken := dirty[p];
      if taken {
        snap := snap[p := layout[p]];
        dirty := dirty[p := false];
        held := held + {p};
      } else {
        assert dirty == dirty[p := false];
      }
    }

    /** snapshot_create(): every dirty page is copied and counts as clean, and the magic page goes with them. */
    method SnapshotCreate()
      requires Valid() && held == {}
      modifies `snap, `snapshot, `dirty, `held, `frozen
      ensures Valid() && State() == old(State()) && frozen == State()
      ensures held == (set p | p in snapshot) && (forall p {:trigger p in held} | p in cached ::
              p in held <==> old(dirty)[p])
      ensures MAGIC in held <==> old(dirty)[MAGIC] || exists p {:trigger old(dirty)[p]} :: p in cached && old(dirty)[p]
    {
      BackedKeys(Resident(), layout, dirty, disk, held);
      FreezingStarts(Resident(), layout, dirty, disk, snap);
      frozen := Contents(Resident(), layout, disk);
      var pages := Pages();
      assert Ranked() && MAGIC !in cached;
      hide Ranked, Backed, Frozen, Contents, Freezing;
      SnapshotPages(pages);
      CopiedAll(dirty, old(dirty), held, pages, cached);
      SomeHeld(old(dirty), held, cached, snapshot);
      hide Copied;
      SnapshotMagic();
      FreezingEnds(Resident(), layout, dirty, disk, held, snap, frozen);
    }

    /** The magic page goes with the others, or alone if it is dirty. */
    method SnapshotMagic()
      requires Freezing(Resident(), layout, dirty, disk, held, snap, frozen) && held == (set p | p in snapshot)
               && MAGIC in dirty
      modifies `snap, `snapshot, `dirty, `held
      ensures Freezing(Resident(), layout, dirty, disk, held, snap, frozen) && held == (set p | p in snapshot)
      ensures dirty == old(dirty)[MAGIC := false] && held == if old(held) != {} || old(dirty)[MAGIC]
              then old(held) + {MAGIC} else old(held)
    {
      hide Freezing;
      if snapshot != [] {
        assert snapshot[0] in held;
        FreezingDirty(Resident(), layout, dirty, disk, held, snap, frozen, MAGIC);
        dirty := dirty[MAGIC := true];
      }
      var taken := SetSnapshot(MAGIC);
      if taken { snapshot := snapshot + [MAGIC]; }
    }

    /** The loop of snapshot_create() over the hash. */
    method SnapshotPages(pages: seq<Index>)
      requires held == {} && (forall p | p in pages :: p in cached)
               && Freezing(Resident(), layout, dirty, disk, held, snap, frozen)
      requires Resident() <= dirty.Keys
      modifies `snap, `snapshot, `dirty, `held
      ensures Freezing(Resident(), layout, dirty, disk, held, snap, frozen) && held == (set p | p in snapshot)
      ensures Copied(dirty, old(dirty), held, pages)
    {
      hide Freezing, Copied;
      snapshot := [];
      CopiedNone(dirty, pages);
      for k := 0 to |pages|
        invariant Freezing(Resident(), layout, dirty, disk, held, snap, frozen) && held == (set p | p in snapshot)
        invariant Copied(dirty, old(dirty), held, pages[..k])
      {
        var page := pages[k];
        CopiedNext(dirty, old(dirty), held, pages, k);
        var taken := SetSnapshot(page);
        if taken { snapshot := snapshot + [page]; }
      }
      assert pages[..|pages|] == pages;
    }

    /** What a successful checkpoint does to the data file: the copies are written, while pages may have changed
        since. */
    method Persist()
      requires Valid() && held == (set p | p in snapshot)
      modifies `disk, `held
      ensures Valid() && held == {} && State() == old(State())
      ensures forall p {:trigger frozen[p]} | p in frozen :: p in disk && disk[p] == frozen[p]
    {
      PersistStarts(Resident(), layout, dirty, disk, held, snap, frozen);
      assert Resident() <= layout.Keys;
      hide Ranked, Backed, Frozen, Contents, Writing;
      ghost var now := State();
      for k := 0 to |snapshot|
        invariant Writing(Resident(), layout, dirty, disk, held, snap, frozen) && held == (set p | p in snapshot[k..])
        invariant Resident() <= layout.Keys && Contents(Resident(), layout, disk) == now
      {
        ghost var rest := snapshot[k + 1..];
        ghost var left := set p | p in rest;
        assert snapshot[k..] == [snapshot[k]] + rest;
        Written(Resident(), layout, dirty, disk, held, snap, frozen, snapshot[k], left);
        disk := disk[snapshot[k] := snap[snapshot[k]]];
        held := left;
      }
      assert held == {};
      PersistEnds(Resident(), layout, dirty, disk, snap, frozen);
    }

    /** snapshot_release(): the copies are freed, and clean pages may go now. */
    method SnapshotRelease()
      requires Valid() && held == {} && size < LRU_LIMIT
      modifies `bucket, `size, `lru, `number, `cached, `q, `snapshot, `snap, `frozen
      ensures Valid() && State() == old(State()) && cached <= old(cached) && snapshot == []
      ensures q == if old(size) <= cacheHigh then old(q) else Evicted(old(q), dirty, old(size) - cacheLow)
      ensures forall p | p in old(cached) && p !in cached :: !dirty[p]
    {
      NothingFrozen(Resident(), layout, dirty, disk);
      hide Ranked, Backed, Frozen, Contents, Evicted;
      snapshot, snap, frozen := [], map[], map[];
      CleanupPages();
    }

    /** All pages, bucket after bucket. */
    method Pages() returns (tmp: seq<Index>)
      requires Hashed(bucket, cached)
      ensures Once(tmp) && forall p {:trigger p in tmp} {:trigger p in cached} :: p in tmp <==> p in cached
    {
      tmp := [];
      for b := 0 to |bucket|
        invariant tmp == Flat(bucket, b)
      {
        for k := 0 to |bucket[b]|
          invariant tmp == Flat(bucket, b) + bucket[b][..k]
        {
          tmp := tmp + [bucket[b][k]];
        }
        assert bucket[b][..|bucket[b]|] == bucket[b];
      }
      FlatPages(bucket, cached, |bucket|);
    }

    /** All pages, sorted by their numbers. */
    method ByUse(ghost top: int) returns (tmp: seq<Index>)
      requires Hashed(bucket, cached) && Recency(q, number, cached, top)
      ensures tmp == q
    {
      tmp := Pages();
      SortedIsRecency(tmp, q, number, cached, top);
      tmp := Sorted(tmp, number);
    }

    /** lru_adjust(): the counter has wrapped, and the pages get new numbers in their order of use. */
    method Renumber()
      requires Hashed(bucket, cached) && Recency(q, number, cached, LRU_LIMIT) && |q| < LRU_LIMIT
      modifies `lru, `number
      ensures Recency(q, number, cached, lru) && lru == |q|
    {
      var tmp := ByUse(LRU_LIMIT);
      RecencyAscends(q, number, cached, LRU_LIMIT);
      AscendingOnce(q, number);
      lru := 0;
      while lru < |tmp|
        invariant 0 <= lru <= |tmp| && forall i {:trigger tmp[i]} | 0 <= i < lru ::
                  tmp[i] in number && number[tmp[i]] == i
      {
        assert forall i | 0 <= i < lru :: tmp[i] != tmp[lru];
        number := number[tmp[lru] := lru];
        lru := lru + 1;
      }
    }

    /** lru_adjust(page): the page is the one used last; it may be new. */
    method LruAdjust(page: Index, ghost rest: set<Index>)
      requires Hashed(bucket, cached) && Recency(q, number, rest, lru) && rest + {page} == cached
               && 0 <= lru < LRU_LIMIT
      requires |Used(q, page)| < LRU_LIMIT
      modifies `lru, `number, `q
      ensures Recency(q, number, cached, lru) && q == Used(old(q), page) && 0 <= lru < LRU_LIMIT
      ensures if old(lru) + 1 < LRU_LIMIT then lru == old(lru) + 1 && number == old(number)[page := old(lru)]
              else lru == |q|
    {
      UsedRecency(q, number, rest, lru, page);
      hide Recency, Hashed, Used;
      number := number[page := lru];
      q := Used(q, page);
      lru := (lru + 1) % LRU_LIMIT;
      if lru == 0 { Renumber(); }
    }

    /** find(): a page that is found is the one used last. */
    method Find(idx: Index) returns (found: bool)
      requires Ranked() && size + 1 < LRU_LIMIT
      modifies `lru, `number, `q
      ensures Ranked() && (found <==> idx in cached) && q == (if found then Used(old(q), idx) else old(q))
    {
      InBucket(bucket, cached, idx);
      var chain := bucket[Slot(|bucket|, idx)];
      var k := Place(chain, idx);
      assert chain[..|chain|] == chain;
      found := k < |chain|;
      if found {
        assert cached + {idx} == cached;
        UsedSize(q, number, cached, lru, idx);
        LruAdjust(idx, cached);
      }
    }

    /** insert(): the page goes to the front of its chain, the number of buckets doubles when they get too few. */
    method Insert(page: Index)
      requires Ranked() && page !in cached && page != MAGIC && size + 1 < LRU_LIMIT
      modifies `bucket, `size, `lru, `number, `cached, `q
      ensures Ranked() && cached == old(cached) + {page} && q == Used(old(q), page)
      ensures |bucket| == if old(size) == |old(bucket)| - 1 then 2 * |old(bucket)| else |old(bucket)|
    {
      var b := Slot(|bucket|, page);
      assert b < |bucket|;
      hide Recency, Hashed, Used, Slot, Doubled;
      TwiceDoubled(|bucket|);
      UsedSize(q, number, cached, lru, page);
      BucketAdds(bucket, cached, page);
      bucket := bucket[b := [page] + bucket[b]];
      cached := cached + {page};
      var was := size;
      size := size + 1;
      if was == |bucket| - 1 { Rehash(); }
      LruAdjust(page, old(cached));
    }

    /** Every page goes to the front of its chain among twice as many. */
    method Rehash()
      requires Hashed(bucket, cached)
      modifies `bucket
      ensures Hashed(bucket, cached) && |bucket| == 2 * |old(bucket)|
    {
      var pages := Pages();
      ghost var moved;
      bucket, moved := Spread(pages, 2 * |bucket|);
      assert forall p :: p in moved <==> p in cached;
      assert moved == cached;
    }

    /** erase(): the page is unlinked from its chain. */
    method Erase(page: Index)
      requires Hashed(bucket, cached) && page in cached && size > 0
      modifies `bucket, `size, `cached
      ensures Hashed(bucket, cached) && cached == old(cached) - {page} && size == old(size) - 1
      ensures |bucket| == |old(bucket)|
    {
      InBucket(bucket, cached, page);
      var b := Slot(|bucket|, page);
      var k := Place(bucket[b], page);
      assert bucket[b][..|bucket[b]|] == bucket[b];
      BucketDrops(bucket, cached, b, k);
      bucket := bucket[b := Removed(bucket[b], k)];
      cached := cached - {page};
      size := size - 1;
    }

    /** cleanup(): when there are too many pages, clean ones go, those used longest ago first. */
    method Cleanup()
      requires Ranked() && cached <= dirty.Keys && size < LRU_LIMIT
      modifies `bucket, `size, `lru, `number, `cached, `q
      ensures Ranked() && cached <= old(cached)
      ensures q == if old(size) <= cacheHigh then old(q) else Evicted(old(q), dirty, old(size) - cacheLow)
    {
      if size > cacheHigh { Evict(); }
    }

    /** Pages beyond cache_low are removed as far as they are clean. */
    method Evict()
      requires Ranked() && cached <= dirty.Keys && size < LRU_LIMIT
      modifies `bucket, `size, `lru, `number, `cached, `q
      ensures Ranked() && cached <= old(cached) && q == Evicted(old(q), dirty, old(size) - cacheLow)
    {
      hide Hashed, Recency, Evicted, Sweep;
      var tmp := ByUse(lru);
      SweepStarts(q, number, cached, lru, dirty, size - cacheLow);
      ghost var all := Evicted(q, dirty, size - cacheLow);
      var it;
      ghost var kept;
      it, kept := EvictClean(tmp, all);
      q := NumberRest(tmp, it, all, kept);
    }

    /** The first loop of cleanup(): until there are few enough pages. */
    method EvictClean(tmp: seq<Index>, ghost all: seq<Index>) returns (it: nat, ghost kept: seq<Index>)
      requires Hashed(bucket, cached) && Sweep(all, [], tmp, cached, number, dirty, size - cacheLow) && size == |tmp|
               && cached <= dirty.Keys
      modifies `bucket, `size, `lru, `number, `cached
      ensures it <= |tmp| && lru == |kept| && size == |kept| + |tmp| - it <= old(size) && Hashed(bucket, cached)
      ensures |bucket| == |old(bucket)|
      ensures cached <= old(cached) && Sweep(all, kept, tmp[it..], cached, number, dirty, 0)
    {
      hide Hashed, Sweep;
      it, kept := 0, [];
      assert tmp[it..] == tmp;
      lru := 0;
      while size > cacheLow && it < |tmp|
        invariant it <= |tmp| && lru == |kept| && size == |kept| + |tmp| - it <= old(size) && Hashed(bucket, cached)
        invariant |bucket| == |old(bucket)|
        invariant cached <= old(cached) && Sweep(all, kept, tmp[it..], cached, number, dirty, size - cacheLow)
      {
        assert tmp[it..][0] == tmp[it] && tmp[it..][1..] == tmp[it + 1..];
        SweepGoesOn(all, kept, tmp[it..], cached, number, dirty, size - cacheLow);
        if !dirty[tmp[it]] {
          Erase(tmp[it]);
        } else {
          number := number[tmp[it] := lru];
          lru := lru + 1;
          kept := kept + [tmp[it]];
        }
        it := it + 1;
      }
      SweepStops(all, kept, tmp[it..], cached, number, dirty, size - cacheLow);
    }

    /** The second loop of cleanup(): the rest stays. */
    method NumberRest(tmp: seq<Index>, start: nat, ghost all: seq<Index>, ghost before: seq<Index>)
      returns (ghost kept: seq<Index>)
      requires start <= |tmp| && lru == |before| && Sweep(all, before, tmp[start..], cached, number, dirty, 0)
      modifies `lru, `number
      ensures kept == all && Recency(kept, number, cached, lru) && lru == |kept| == |before| + |tmp| - start
    {
      hide Sweep, Recency;
      var it := start;
      kept := before;
      while it < |tmp|
        invariant it <= |tmp| && lru == |kept| == |before| + it - start
        invariant Sweep(all, kept, tmp[it..], cached, number, dirty, 0)
      {
        assert tmp[it..][0] == tmp[it] && tmp[it..][1..] == tmp[it + 1..];
        SweepNumbers(all, kept, tmp[it..], cached, number, dirty);
        number := number[tmp[it] := lru];
        lru := lru + 1;
        kept := kept + [tmp[it]];
        it := it + 1;
      }
      SweepEnds(all, kept, tmp[it..], cached, number, dirty);
    }
  }

  /** Where the page is in its chain. */
  method Place(chain: seq<Index>, idx: Index) returns (k: nat)
    ensures k <= |chain| && idx !in chain[..k] && (k < |chain| ==> chain[k] == idx)
  {
    k := 0;
    while k < |chain| && chain[k] != idx
      invariant k <= |chain| && idx !in chain[..k]
    {
      k := k + 1;
    }
  }

  /** The pages put to the front of n new chains, one after the other. */
  method Spread(pages: seq<Index>, n: nat) returns (tmp: seq<seq<Index>>, ghost moved: set<Index>)
    requires Once(pages) && n > 0
    ensures |tmp| == n && Hashed(tmp, moved) && forall p {:trigger p in moved} {:trigger p in pages} ::
            p in moved <==> p in pages
  {
    tmp, moved := seq(n, _ => []), {};
    for k := 0 to |pages|
      invariant |tmp| == n && Hashed(tmp, moved)
      invariant forall p {:trigger p in moved} {:trigger p in pages[..k]} :: p in moved <==> p in pages[..k]
    {
      NotBefore(pages, k);
      BucketAdds(tmp, moved, pages[k]);
      var b := Slot(|tmp|, pages[k]);
      tmp := tmp[b := [pages[k]] + tmp[b]];
      moved := moved + {pages[k]};
      assert pages[..k + 1] == pages[..k] + [pages[k]];
    }
    assert pages[..|pages|] == pages;
  }

  /** The pages swept so far have the numbers 0, 1, .., the rest is still to be looked at, and `all` is what will be
      left. */
  ghost predicate Sweep(all: seq<Index>, kept: seq<Index>, rest: seq<Index>, cached: set<Index>,
      number: map<Index, int>, dirty: map<Index, bool>, n: int)
  {
    && Once(kept + rest) && (forall p {:trigger p in cached} :: p in cached <==> p in kept || p in rest)
    && (forall k {:trigger kept[k]} | 0 <= k < |kept| :: kept[k] in number && number[kept[k]] == k)
    && kept + Evicted(rest, dirty, n) == all
  }

  lemma SweepStarts(q: seq<Index>, number: map<Index, int>, cached: set<Index>, top: int, dirty: map<Index, bool>,
      n: int)
    requires Recency(q, number, cached, top)
    ensures Sweep(Evicted(q, dirty, n), [], q, cached, number, dirty, n)
  {
    RecencyAscends(q, number, cached, top);
    AscendingOnce(q, number);
    assert [] + q == q;
    assert [] + Evicted(q, dirty, n) == Evicted(q, dirty, n);
  }

  lemma SweepGoesOn(all: seq<Index>, kept: seq<Index>, rest: seq<Index>, cached: set<Index>, number: map<Index, int>,
      dirty: map<Index, bool>, n: int)
    requires Sweep(all, kept, rest, cached, number, dirty, n) && rest != [] && n > 0
    ensures rest[0] in cached
    ensures !(rest[0] in dirty && dirty[rest[0]]) ==>
            Sweep(all, kept, rest[1..], cached - {rest[0]}, number, dirty, n - 1)
    ensures rest[0] in dirty && dirty[rest[0]] ==>
            Sweep(all, kept + [rest[0]], rest[1..], cached, number[rest[0] := |kept|], dirty, n)
  {
    RestOnce(kept, rest);
    hide Once;
    var p := rest[0];
    assert p in rest;
    assert rest == [p] + rest[1..];
    assert (kept + [p]) + rest[1..] == kept + rest;
    assert (kept + [p]) + Evicted(rest[1..], dirty, n) == kept + ([p] + Evicted(rest[1..], dirty, n));
  }

  lemma RestOnce(kept: seq<Index>, rest: seq<Index>)
    requires Once(kept + rest) && rest != []
    ensures rest[0] !in kept && rest[0] !in rest[1..] && Once(kept + rest[1..])
  {
    var c := kept + rest;
    forall i | 0 <= i < |kept| ensures kept[i] != rest[0] { assert c[i] != c[|kept|]; }
    forall i | 0 <= i < |rest[1..]| ensures rest[1..][i] != rest[0] { assert c[|kept| + 1 + i] != c[|kept|]; }
    var d := kept + rest[1..];
    forall i, j | 0 <= i < j < |d|
      ensures d[i] != d[j]
    {
      assert d[i] == c[if i < |kept| then i else i + 1] && d[j] == c[if j < |kept| then j else j + 1];
    }
  }

  lemma SweepStops(all: seq<Index>, kept: seq<Index>, rest: seq<Index>, cached: set<Index>, number: map<Index, int>,
      dirty: map<Index, bool>, n: int)
    requires Sweep(all, kept, rest, cached, number, dirty, n) && (rest == [] || n <= 0)
    ensures Sweep(all, kept, rest, cached, number, dirty, 0)
  {
  }

  lemma SweepNumbers(all: seq<Index>, kept: seq<Index>, rest: seq<Index>, cached: set<Index>, number: map<Index, int>,
      dirty: map<Index, bool>)
    requires Sweep(all, kept, rest, cached, number, dirty, 0) && rest != []
    ensures Sweep(all, kept + [rest[0]], rest[1..], cached, number[rest[0] := |kept|], dirty, 0)
  {
    RestOnce(kept, rest);
    hide Once;
    assert rest == [rest[0]] + rest[1..];
    assert (kept + [rest[0]]) + rest[1..] == kept + rest;
  }

  lemma SweepEnds(all: seq<Index>, kept: seq<Index>, rest: seq<Index>, cached: set<Index>, number: map<Index, int>,
      dirty: map<Index, bool>)
    requires Sweep(all, kept, rest, cached, number, dirty, 0) && rest == []
    ensures kept == all && Recency(kept, number, cached, |kept|)
  {
  }

  /** Place k of a list without repetition holds something new. */
  lemma NotBefore(list: seq<Index>, k: nat)
    requires Once(list) && k < |list|
    ensures list[k] !in list[..k]
  {
    forall i | 0 <= i < k ensures list[..k][i] != list[k] { assert list[i] != list[k]; }
  }

  lemma TwiceDoubled(n: nat)
    requires Doubled(n)
    ensures Doubled(2 * n)
  {
    assert 2 * n / 2 == n;
  }

  /** The number of buckets: 16 doubled until there are enough for the cache. */
  method Buckets(high: nat) returns (n: nat)
    ensures Doubled(n) && n >= high && (n == 16 || n < 2 * high)
  {
    n := 16;
    while n < high
      invariant n >= 16 && Doubled(n) && (n == 16 || n < 2 * high)
      decreases high - n
    {
      n := 2 * n;
    }
  }

  lemma ContentsHas(resident: set<Index>, layout: map<Index, Layout>, dirty: map<Index, bool>,
      disk: map<Index, Layout>, held: set<Index>, p: Index)
    requires Backed(resident, layout, dirty, disk, held)
    ensures p in Contents(resident, layout, disk) <==> p in resident || p in disk
  {
  }

  /** A page read from disk is clean, and nobody sees a difference. */
  lemma LoadKeeps(resident: set<Index>, layout: map<Index, Layout>, dirty: map<Index, bool>, disk: map<Index, Layout>,
      held: set<Index>, snap: map<Index, Layout>, frozen: map<Index, Layout>, p: Index)
    requires Backed(resident, layout, dirty, disk, held) && Frozen(resident, layout, dirty, disk, held, snap, frozen)
    requires p !in resident && p in disk
    ensures Backed(resident + {p}, layout[p := disk[p]], dirty[p := false], disk, held)
    ensures Frozen(resident + {p}, layout[p := disk[p]], dirty[p := false], disk, held, snap, frozen)
    ensures Contents(resident + {p}, layout[p := disk[p]], disk) == Contents(resident, layout, disk)
  {
  }

  lemma BackedKeys(resident: set<Index>, layout: map<Index, Layout>, dirty: map<Index, bool>,
      disk: map<Index, Layout>, held: set<Index>)
    requires Backed(resident, layout, dirty, disk, held)
    ensures resident <= layout.Keys && resident <= dirty.Keys
  {
  }

  lemma DirtyKeeps(resident: set<Index>, layout: map<Index, Layout>, dirty: map<Index, bool>,
      disk: map<Index, Layout>, held: set<Index>, snap: map<Index, Layout>, frozen: map<Index, Layout>, p: Index)
    requires Backed(resident, layout, dirty, disk, held) && Frozen(resident, layout, dirty, disk, held, snap, frozen)
    ensures Backed(resident, layout, dirty[p := true], disk, held)
            && Frozen(resident, layout, dirty[p := true], disk, held, snap, frozen)
  {
  }

  lemma WriteKeeps(resident: set<Index>, layout: map<Index, Layout>, dirty: map<Index, bool>,
      disk: map<Index, Layout>, held: set<Index>, snap: map<Index, Layout>, frozen: map<Index, Layout>, p: Index,
      content: Layout)
    requires Backed(resident, layout, dirty, disk, held) && Frozen(resident, layout, dirty, disk, held, snap, frozen)
    requires p in resident && dirty[p]
    ensures Backed(resident, layout[p := content], dirty, disk, held)
            && Frozen(resident, layout[p := content], dirty, disk, held, snap, frozen)
    ensures Contents(resident, layout[p := content], disk) == Contents(resident, layout, disk)[p := content]
  {
  }

  lemma NewKeeps(resident: set<Index>, layout: map<Index, Layout>, dirty: map<Index, bool>, disk: map<Index, Layout>,
      held: set<Index>, snap: map<Index, Layout>, frozen: map<Index, Layout>, p: Index, zero: Layout)
    requires Backed(resident, layout, dirty, disk, held) && Frozen(resident, layout, dirty, disk, held, snap, frozen)
    requires p !in resident && p !in disk
    ensures Backed(resident + {p}, layout[p := zero], dirty[p := true], disk, held)
    ensures Frozen(resident + {p}, layout[p := zero], dirty[p := true], disk, held, snap, frozen)
    ensures Contents(resident + {p}, layout[p := zero], disk) == Contents(resident, layout, disk)[p := zero]
  {
  }

  /** The pages that an eviction removes are clean. */
  lemma EvictedClean(q: seq<Index>, lru: map<Index, int>, cached: set<Index>, top: int, dirty: map<Index, bool>,
      n: int, left: seq<Index>, number: map<Index, int>, now: set<Index>, bottom: int)
    requires Recency(q, lru, cached, top) && Recency(left, number, now, bottom)
             && (left == q || left == Evicted(q, dirty, n)) && cached <= dirty.Keys
    ensures forall p {:trigger dirty[p]} | p in cached && p !in now :: !dirty[p]
  {
    RecencyAscends(q, lru, cached, top);
    forall p | p in cached && p !in now
      ensures !dirty[p]
    {
      assert p in q && p !in left;
      EvictedOldest(q, dirty, n, lru, p);
    }
  }

  /** Clean pages can go while no snapshot is pending. */
  lemma GoneKeeps(resident: set<Index>, layout: map<Index, Layout>, dirty: map<Index, bool>, disk: map<Index, Layout>,
      snap: map<Index, Layout>, frozen: map<Index, Layout>, now: set<Index>)
    requires Backed(resident, layout, dirty, disk, {}) && Frozen(resident, layout, dirty, disk, {}, snap, frozen)
    requires now <= resident && forall p {:trigger dirty[p]} | p in resident && p !in now :: !dirty[p]
    ensures Backed(now, layout, dirty, disk, {}) && Frozen(now, layout, dirty, disk, {}, snap, frozen)
    ensures Contents(now, layout, disk) == Contents(resident, layout, disk)
  {
    forall p | p in resident && p !in now ensures p in disk && disk[p] == layout[p] { assert !dirty[p]; }
  }

  lemma NothingFrozen(resident: set<Index>, layout: map<Index, Layout>, dirty: map<Index, bool>,
      disk: map<Index, Layout>)
    requires Backed(resident, layout, dirty, disk, {})
    ensures Frozen(resident, layout, dirty, disk, {}, map[], map[])
  {
  }

  lemma AscendingOnce(q: seq<Index>, lru: map<Index, int>)
    requires Ascending(q, lru)
    ensures forall i, j {:trigger q[i], q[j]} | 0 <= i < j < |q| :: q[i] != q[j]
  {
  }

  lemma UsedSize(q: seq<Index>, lru: map<Index, int>, cached: set<Index>, top: int, p: Index)
    requires Recency(q, lru, cached, top)
    ensures |Used(q, p)| == |q| + if p in cached then 0 else 1
  {
    RecencyAscends(q, lru, cached, top);
    OthersSize(q, lru, p);
  }

  lemma {:induction false} OthersSize(q: seq<Index>, lru: map<Index, int>, p: Index)
    requires Ascending(q, lru)
    ensures |Others(q, p)| == |q| - if p in q then 1 else 0
  {
    if q != [] {
      AscendingTail(q, lru);
      OthersSize(q[1..], lru, p);
    }
  }
}
