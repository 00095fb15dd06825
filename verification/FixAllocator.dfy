/** The fixed-size allocator of `zgame/include/amemory.h`: chunks with free slots, exhausted chunks, and the
    search for the chunk of a pointer. */
module FixAllocator {
  import opened Sequences
  import opened ChunkModel

  // ---------- live addresses ----------

  /** Slot i of buffer b is at p and not free. */
  ghost predicate LiveSlot(size: nat, bufs: set<nat>, free: map<nat, seq<nat>>, b: nat, i: nat, p: nat) {
    b in bufs && b in free && i < SLOTS && i !in free[b] && p == Slot(b, size, i)
  }

  /** The live addresses are the slots that are not free. */
  ghost predicate Live(size: nat, bufs: set<nat>, free: map<nat, seq<nat>>, live: set<nat>) {
    && (forall b, i: nat, p {:trigger LiveSlot(size, bufs, free, b, i, p)} | LiveSlot(size, bufs, free, b, i, p) ::
       p in live)
    && (forall p | p in live :: exists b, i: nat :: LiveSlot(size, bufs, free, b, i, p))
  }

  /** All buffers are apart from each other. */
  ghost predicate Spread(size: nat, bufs: set<nat>) {
    forall a, b {:trigger Apart(size * SLOTS, a, b)} | a in bufs && b in bufs && a != b :: Apart(size * SLOTS, a, b)
  }

  /** An address is the slot of one buffer only. */
  lemma OneHome(size: nat, bufs: set<nat>, a: nat, i: nat, b: nat, j: nat)
    requires size > 0 && Spread(size, bufs) && a in bufs && b in bufs && i < SLOTS && j < SLOTS
             && Slot(a, size, i) == Slot(b, size, j)
    ensures a == b && i == j
  {
    SlotInside(size, i);
    SlotInside(size, j);
    assert a != b ==> Apart(size * SLOTS, a, b);
    if i != j { SlotsDiffer(size, i, j); }
  }

  lemma LiveTaken(size: nat, bufs: set<nat>, free: map<nat, seq<nat>>, live: set<nat>, b: nat)
    requires size > 0 && Spread(size, bufs) && Live(size, bufs, free, live) && b in bufs && b in free
             && Free(free[b]) && free[b] != []
    ensures var p := Slot(b, size, free[b][0]); p !in live && Live(size, bufs, free[b := free[b][1..]], live + {p})
  {
    var p, n := Slot(b, size, free[b][0]), free[b := free[b][1..]];
    forall c, i: nat | LiveSlot(size, bufs, free, c, i, p)
      ensures false
    {
      OneHome(size, bufs, c, i, b, free[b][0]);
    }
    assert free[b] == [free[b][0]] + free[b][1..];
    forall c, i: nat, q | LiveSlot(size, bufs, n, c, i, q)
      ensures q in live + {p}
    {
      if !(c == b && i == free[b][0]) { assert LiveSlot(size, bufs, free, c, i, q); }
    }
    forall q | q in live + {p}
      ensures exists c, i: nat :: LiveSlot(size, bufs, n, c, i, q)
    {
      if q == p {
        TakenOnce(free[b]);
        assert LiveSlot(size, bufs, n, b, free[b][0], p);
      } else {
        var c, i: nat :| LiveSlot(size, bufs, free, c, i, q);
        assert LiveSlot(size, bufs, n, c, i, q);
      }
    }
  }

  lemma TakenOnce(f: seq<nat>)
    requires Free(f) && f != []
    ensures f[0] !in f[1..]
  {
    forall k | 0 <= k < |f[1..]| ensures f[1..][k] != f[0] { assert f[1..][k] == f[k + 1]; }
  }

  lemma LiveReturned(size: nat, bufs: set<nat>, free: map<nat, seq<nat>>, live: set<nat>, b: nat, i: nat)
    requires size > 0 && Spread(size, bufs) && Live(size, bufs, free, live)
             && LiveSlot(size, bufs, free, b, i, Slot(b, size, i))
    ensures Slot(b, size, i) in live && Live(size, bufs, free[b := [i] + free[b]], live - {Slot(b, size, i)})
  {
    var p, n := Slot(b, size, i), free[b := [i] + free[b]];
    forall c, j: nat, q | LiveSlot(size, bufs, n, c, j, q)
      ensures q in live - {p}
    {
      assert LiveSlot(size, bufs, free, c, j, q);
      if q == p { OneHome(size, bufs, c, j, b, i); }
    }
    forall q | q in live - {p}
      ensures exists c, j: nat :: LiveSlot(size, bufs, n, c, j, q)
    {
      var c, j: nat :| LiveSlot(size, bufs, free, c, j, q);
      assert LiveSlot(size, bufs, n, c, j, q);
    }
  }

  lemma LiveNew(size: nat, bufs: set<nat>, free: map<nat, seq<nat>>, live: set<nat>, b: nat)
    requires Live(size, bufs, free, live) && b !in bufs
    ensures Live(size, bufs + {b}, free[b := Fresh(0)], live)
  {
    var n := free[b := Fresh(0)];
    FreshIs(0);
    forall c, j: nat, q | LiveSlot(size, bufs + {b}, n, c, j, q)
      ensures q in live
    {
      assert j < SLOTS;
      assert Fresh(0)[j] == j;
      assert j in Fresh(0);
      assert c != b;
      assert LiveSlot(size, bufs, free, c, j, q);
    }
    forall q | q in live
      ensures exists c, j: nat :: LiveSlot(size, bufs + {b}, n, c, j, q)
    {
      var c, j: nat :| LiveSlot(size, bufs, free, c, j, q);
      assert LiveSlot(size, bufs + {b}, n, c, j, q);
    }
  }

  /** A chunk all of whose slots are free holds no live address. */
  lemma LiveDropped(size: nat, bufs: set<nat>, free: map<nat, seq<nat>>, live: set<nat>, b: nat)
    requires Live(size, bufs, free, live) && b in bufs && b in free && Free(free[b]) && |free[b]| == SLOTS
    ensures Live(size, bufs - {b}, free, live)
  {
    forall c, j: nat, q | LiveSlot(size, bufs - {b}, free, c, j, q)
      ensures q in live
    {
      assert LiveSlot(size, bufs, free, c, j, q);
    }
    forall q | q in live
      ensures exists c, j: nat :: LiveSlot(size, bufs - {b}, free, c, j, q)
    {
      var c, j: nat :| LiveSlot(size, bufs, free, c, j, q);
      if c == b { NotAll(free[b], j); }
      assert LiveSlot(size, bufs - {b}, free, c, j, q);
    }
  }

  // ---------- lists of intact chunks ----------

  ghost predicate Intact(mem: map<nat, nat>, size: nat, free: map<nat, seq<nat>>, c: Chunk) {
    c.buf in free && ChunkOK(mem, size, c, free[c.buf])
  }

  ghost predicate AllIntact(mem: map<nat, nat>, size: nat, free: map<nat, seq<nat>>, list: seq<Chunk>, some: bool) {
    forall i {:trigger list[i]} | 0 <= i < |list| :: Intact(mem, size, free, list[i]) && (list[i].free > 0 <==> some)
  }

  lemma SlotsApart(size: nat, a: nat, i: nat, b: nat, j: nat)
    requires Apart(size * SLOTS, a, b) && i < SLOTS && j < SLOTS
    ensures Slot(a, size, i) != Slot(b, size, j)
  {
    SlotInside(size, i);
    SlotInside(size, j);
  }

  /** A write into another buffer leaves a chunk intact. */
  lemma IntactElsewhere(mem: map<nat, nat>, size: nat, free: map<nat, seq<nat>>, c: Chunk, b: nat, i: nat, x: nat,
      f: seq<nat>)
    requires Intact(mem, size, free, c) && i < SLOTS && Apart(size * SLOTS, c.buf, b)
    ensures Intact(mem[Slot(b, size, i) := x], size, free[b := f], c)
  {
    hide Slot;
    var g := free[c.buf];
    forall k {:trigger g[k]} | 0 <= k < |g|
      ensures Slot(c.buf, size, g[k]) != Slot(b, size, i)
    {
      SlotsApart(size, c.buf, g[k], b, i);
    }
    LinkedFrame(mem, c.buf, size, g, Slot(b, size, i), x);
  }

  lemma AllElsewhere(mem: map<nat, nat>, size: nat, free: map<nat, seq<nat>>, list: seq<Chunk>, some: bool, b: nat,
      i: nat, x: nat, f: seq<nat>)
    requires size > 0 && AllIntact(mem, size, free, list, some) && i < SLOTS && b !in Bufs(list)
             && Spread(size, Bufs(list) + {b})
    ensures AllIntact(mem[Slot(b, size, i) := x], size, free[b := f], list, some)
  {
    forall k | 0 <= k < |list|
      ensures Intact(mem[Slot(b, size, i) := x], size, free[b := f], list[k])
    {
      assert list[k].buf in Bufs(list);
      assert Apart(size * SLOTS, list[k].buf, b);
      IntactElsewhere(mem, size, free, list[k], b, i, x, f);
    }
  }

  lemma AllIntactOthers(mem: map<nat, nat>, size: nat, free: map<nat, seq<nat>>, list: seq<Chunk>, some: bool, b: nat,
      f: seq<nat>)
    requires AllIntact(mem, size, free, list, some) && b !in Bufs(list)
    ensures AllIntact(mem, size, free[b := f], list, some)
  {
    forall k | 0 <= k < |list|
      ensures Intact(mem, size, free[b := f], list[k])
    {
      assert list[k].buf in Bufs(list);
    }
  }

  /** Memory outside the chunk at b is as before. */
  ghost predicate SameOutside(mem: map<nat, nat>, now: map<nat, nat>, b: nat, span: nat) {
    forall a | a in mem && !(b <= a < b + span) :: a in now && now[a] == mem[a]
  }

  lemma {:induction false} LinkedOutside(mem: map<nat, nat>, now: map<nat, nat>, buf: nat, size: nat, f: seq<nat>,
      b: nat)
    requires Linked(mem, buf, size, f) && (forall k | 0 <= k < |f| :: f[k] < SLOTS)
             && SameOutside(mem, now, b, size * SLOTS)
    requires size > 0 && Apart(size * SLOTS, buf, b)
    ensures Linked(now, buf, size, f)
  {
    if f != [] {
      SlotInside(size, f[0]);
      LinkedOutside(mem, now, buf, size, f[1..], b);
    }
  }

  /** A new chunk apart from the others leaves these intact. */
  lemma AllOutside(mem: map<nat, nat>, now: map<nat, nat>, size: nat, free: map<nat, seq<nat>>, list: seq<Chunk>,
      some: bool, b: nat, f: seq<nat>)
    requires size > 0 && AllIntact(mem, size, free, list, some) && SameOutside(mem, now, b, size * SLOTS)
    requires b !in Bufs(list) && Spread(size, Bufs(list) + {b})
    ensures AllIntact(now, size, free[b := f], list, some)
  {
    forall k | 0 <= k < |list|
      ensures Intact(now, size, free[b := f], list[k])
    {
      assert list[k].buf in Bufs(list);
      assert Apart(size * SLOTS, list[k].buf, b);
      LinkedOutside(mem, now, list[k].buf, size, free[list[k].buf], b);
    }
  }

  lemma AllInserted(mem: map<nat, nat>, size: nat, free: map<nat, seq<nat>>, list: seq<Chunk>, some: bool, i: nat,
      c: Chunk)
    requires i <= |list| && AllIntact(mem, size, free, list, some) && Intact(mem, size, free, c)
             && (c.free > 0 <==> some)
    ensures AllIntact(mem, size, free, Inserted(list, i, c), some)
  {
    hide Intact;
    var n := Inserted(list, i, c);
    forall k | 0 <= k < |n|
      ensures Intact(mem, size, free, n[k]) && (n[k].free > 0 <==> some)
    {
      if k != i { assert n[k] == list[if k < i then k else k - 1]; }
    }
  }

  lemma AllErased(mem: map<nat, nat>, size: nat, free: map<nat, seq<nat>>, list: seq<Chunk>, some: bool, i: nat)
    requires i < |list| && AllIntact(mem, size, free, list, some)
    ensures AllIntact(mem, size, free, Removed(list, i), some)
  {
    hide Intact;
    var n := Removed(list, i);
    forall k | 0 <= k < |n|
      ensures Intact(mem, size, free, n[k]) && (n[k].free > 0 <==> some)
    {
      assert n[k] == list[if k < i then k else k + 1];
    }
  }

  // ---------- the two lists ----------

  /** blocks but for the last one and empties are in address order, and no chunk is listed twice. */
  ghost predicate Lists(blocks: seq<Chunk>, empties: seq<Chunk>) {
    && (blocks != [] ==> Ascending(blocks[..|blocks| - 1]))
    && OnceEach(blocks) && Ascending(empties) && Bufs(blocks) !! Bufs(empties)
  }

  ghost function All(blocks: seq<Chunk>, empties: seq<Chunk>): set<nat> { Bufs(blocks) + Bufs(empties) }

  lemma ErasedOrder(list: seq<Chunk>, i: nat)
    requires i < |list|
    ensures Ascending(list) ==> Ascending(Removed(list, i))
    ensures i < |list| - 1 && Ascending(list[..|list| - 1]) ==> Ascending(Removed(list, i)[..|list| - 2])
    ensures i == |list| - 1 && Ascending(list[..|list| - 1]) ==> Ascending(Removed(list, i))
  {
    var n := Removed(list, i);
    if Ascending(list[..|list| - 1]) && i < |list| - 1 {
      var front := list[..|list| - 1];
      var m := n[..|list| - 2];
      forall j, k | 0 <= j < k < |m|
        ensures m[j].buf < m[k].buf
      {
        assert m[j] == front[if j < i then j else j + 1] && m[k] == front[if k < i then k else k + 1];
      }
    }
  }

  lemma FrontAscending(list: seq<Chunk>, n: nat)
    requires Ascending(list) && n <= |list|
    ensures Ascending(list[..n])
  {
  }

  lemma BufListed(list: seq<Chunk>, i: nat)
    requires i < |list|
    ensures list[i].buf in Bufs(list)
  {
  }

  /** An exhausted last chunk moves over to the other list. */
  lemma Exhausted(blocks: seq<Chunk>, empties: seq<Chunk>)
    requires blocks != [] && Lists(blocks, empties)
    ensures var c := blocks[|blocks| - 1];
            var e := Inserted(empties, Lower(empties, |empties|, 0, c.buf), c);
            var b := Removed(blocks, |blocks| - 1);
            Lists(b, e) && All(b, e) == All(blocks, empties)
  {
    hide OnceEach, Ascending, Bufs;
    var c := blocks[|blocks| - 1];
    var i := Lower(empties, |empties|, 0, c.buf);
    BufListed(blocks, |blocks| - 1);
    assert empties[..|empties|] == empties;
    LowerKeepsOrder(empties, |empties|, c);
    var e := Inserted(empties, i, c);
    assert e[..|empties| + 1] == e;
    BufsInserted(empties, i, c);
    BufsErased(blocks, |blocks| - 1);
    ErasedOrder(blocks, |blocks| - 1);
    var b := Removed(blocks, |blocks| - 1);
    if b != [] { FrontAscending(b, |b| - 1); }
  }

  /** Chunk c moves from one list to the other. */
  lemma Moved(blocks: seq<Chunk>, empties: seq<Chunk>, c: nat, b: seq<Chunk>, e: seq<Chunk>)
    requires Bufs(blocks) !! Bufs(empties) && c in Bufs(empties)
    requires b != [] && Ascending(b[..|b| - 1]) && OnceEach(b) && Ascending(e)
    requires Bufs(b) == Bufs(blocks) + {c} && Bufs(e) == Bufs(empties) - {c}
    ensures Lists(b, e) && All(b, e) == All(blocks, empties)
  {
    hide Bufs, Ascending, OnceEach;
  }

  lemma MovedFrom(blocks: seq<Chunk>, empties: seq<Chunk>, i: nat)
    requires Lists(blocks, empties) && i < |empties|
    ensures Bufs(blocks) !! Bufs(empties) && empties[i].buf in Bufs(empties) && empties[i].buf !in Bufs(blocks)
            && OnceEach(blocks) && Ascending(empties)
    ensures OnceEach(empties) && (blocks != [] ==> Ascending(blocks[..|blocks| - 1]))
  {
    assert empties[i].buf in Bufs(empties);
  }

  lemma InsertedSize(list: seq<Chunk>, i: nat, c: Chunk)
    requires i <= |list|
    ensures |Inserted(list, i, c)| == |list| + 1
  {
  }

  /** insert() of a chunk in address order in front of the last one. */
  function Placed(list: seq<Chunk>, c: Chunk): seq<Chunk>
    requires list != []
  {
    Inserted(list, Lower(list, |list| - 1, 0, c.buf), c)
  }

  /** An exhausted chunk that got a slot back returns to its place in front of the last one. */
  lemma Revived(blocks: seq<Chunk>, empties: seq<Chunk>, i: nat, c: Chunk)
    requires blocks != [] && Lists(blocks, empties) && i < |empties| && c.buf == empties[i].buf
    ensures var b := Placed(blocks, c);
            var e := Removed(empties, i);
            Lists(b, e) && All(b, e) == All(blocks, empties)
  {
    hide OnceEach, Ascending, Bufs, Lists, All, Lower, Inserted, Removed;
    var at := Lower(blocks, |blocks| - 1, 0, c.buf);
    MovedFrom(blocks, empties, i);
    LowerKeepsOrder(blocks, |blocks| - 1, c);
    BufsInserted(blocks, at, c);
    BufsErased(empties, i);
    ErasedOrder(empties, i);
    InsertedSize(blocks, at, c);
    Moved(blocks, empties, c.buf, Inserted(blocks, at, c), Removed(empties, i));
  }

  lemma Dropped(blocks: seq<Chunk>, empties: seq<Chunk>, i: nat)
    requires Lists(blocks, empties) && i < |blocks|
    ensures var b := Removed(blocks, i); Lists(b, empties) && All(b, empties) == All(blocks, empties) - {blocks[i].buf}
  {
    hide OnceEach, Ascending, Bufs;
    BufListed(blocks, i);
    BufsErased(blocks, i);
    ErasedOrder(blocks, i);
    var b := Removed(blocks, i);
    if i == |blocks| - 1 && b != [] { FrontAscending(b, |b| - 1); }
  }

  // ---------- the search for a chunk ----------

  predicate Inside(size: nat, c: Chunk, p: nat) {
    c.buf <= p < c.buf + size * SLOTS
  }

  /** find_chunk's binary search: the chunk of p among the first `end` ones, or |list|. */
  function Search(size: nat, list: seq<Chunk>, end: nat, p: nat): nat
    requires end <= |list|
  {
    var it := Lower(list, end, size * SLOTS, p);
    if it < end && Inside(size, list[it], p) then it else |list|
  }

  /** Chunks that may touch but not overlap. */
  ghost predicate Disjoint(span: nat, list: seq<Chunk>) {
    forall i, j | 0 <= i < j < |list| :: list[i].buf + span <= list[j].buf
  }

  /** The search meets the chunk of p exactly if no chunk in front of it ends just where p starts. */
  lemma FoundIff(size: nat, list: seq<Chunk>, end: nat, k: nat, p: nat)
    requires end <= |list| && Disjoint(size * SLOTS, list[..end]) && k < end && Inside(size, list[k], p)
    ensures Search(size, list, end, p) == k <==> forall j | 0 <= j < k :: list[j].buf + size * SLOTS != p
  {
    var it, front := Lower(list, end, size * SLOTS, p), list[..end];
    assert front[k] == list[k];
    forall j | 0 <= j < k ensures list[j].buf + size * SLOTS <= list[k].buf { assert front[j] == list[j]; }
    if it < k {
      assert list[it].buf + size * SLOTS == p;
    }
  }

  /** What free() does with an address: it goes to a chunk of the block list, to one that was exhausted, or free()
      throws. */
  datatype Fate = InBlock(k: nat) | FromEmpty(k: nat) | Throws

  function Freeing(size: nat, blocks: seq<Chunk>, empties: seq<Chunk>, p: nat): Fate
    requires blocks != []
  {
    var k := if Inside(size, blocks[|blocks| - 1], p) then |blocks| - 1 else Search(size, blocks, |blocks| - 1, p);
    if k < |blocks| then InBlock(k)
    else
      var e := Search(size, empties, |empties|, p);
      if e < |empties| then FromEmpty(e) else Throws
  }

  /** Of a chunk in the block list that is not the last one: free() throws, and the slot is lost, exactly if a chunk
      in front of it ends just where the address is. */
  lemma FreeingBlock(size: nat, blocks: seq<Chunk>, empties: seq<Chunk>, k: nat, p: nat)
    requires k + 1 < |blocks| && Disjoint(size * SLOTS, blocks[..|blocks| - 1]) && Inside(size, blocks[k], p)
    requires !Inside(size, blocks[|blocks| - 1], p) && forall e | 0 <= e < |empties| :: !Inside(size, empties[e], p)
    ensures Freeing(size, blocks, empties, p) ==
            if forall j | 0 <= j < k :: blocks[j].buf + size * SLOTS != p then InBlock(k) else Throws
  {
    var last := |blocks| - 1;
    FoundIff(size, blocks, last, k, p);
  }

  /** Of an exhausted chunk, the same. */
  lemma FreeingEmpty(size: nat, blocks: seq<Chunk>, empties: seq<Chunk>, k: nat, p: nat)
    requires k < |empties| && Disjoint(size * SLOTS, empties) && Inside(size, empties[k], p)
    requires blocks != [] && forall b | 0 <= b < |blocks| :: !Inside(size, blocks[b], p)
    ensures Freeing(size, blocks, empties, p) ==
            if forall j | 0 <= j < k :: empties[j].buf + size * SLOTS != p then FromEmpty(k) else Throws
  {
    assert empties[..|empties|] == empties;
    FoundIff(size, empties, |empties|, k, p);
  }

  /** Two chunks of 255 slots of 8 bytes, the second where the first ends: its first slot cannot be given back. */
  lemma TouchingChunks(a: nat, c: nat)
    requires a + 4080 <= c
    ensures var blocks := [Chunk(a, 0, 1), Chunk(a + 2040, 255, 254), Chunk(c, 0, 255)];
            Inside(8, blocks[1], a + 2040) && Freeing(8, blocks, [], a + 2040) == Throws
                && Freeing(8, blocks, [], a + 2048) == InBlock(1)
  {
    var blocks := [Chunk(a, 0, 1), Chunk(a + 2040, 255, 254), Chunk(c, 0, 255)];
    assert Disjoint(8 * SLOTS, blocks[..2]);
    FreeingBlock(8, blocks, [], 1, a + 2040);
    FreeingBlock(8, blocks, [], 1, a + 2048);
    assert blocks[0].buf + 8 * SLOTS == a + 2040;
  }

  /** With room between the chunks, the search meets the chunk of p. */
  lemma Found(size: nat, list: seq<Chunk>, end: nat, k: nat, p: nat)
    requires end <= |list| && Ascending(list[..end]) && Spread(size, Bufs(list)) && k < end && Inside(size, list[k], p)
    ensures Search(size, list, end, p) == k
  {
    var front := list[..end];
    forall i, j | 0 <= i < j < end
      ensures list[i].buf + size * SLOTS < list[j].buf
    {
      assert front[i].buf < front[j].buf;
      assert list[i].buf in Bufs(list) && list[j].buf in Bufs(list);
      assert Apart(size * SLOTS, list[i].buf, list[j].buf);
    }
    FoundIff(size, list, end, k, p);
  }

  /** A chunk that the search meets is the one that p lies in. */
  lemma NotFound(size: nat, list: seq<Chunk>, end: nat, bufs: set<nat>, b: nat, i: nat)
    requires size > 0 && end <= |list| && Spread(size, bufs) && Bufs(list) <= bufs && b in bufs && i < SLOTS
    requires Search(size, list, end, Slot(b, size, i)) != |list|
    ensures list[Search(size, list, end, Slot(b, size, i))].buf == b
  {
    var c := list[Search(size, list, end, Slot(b, size, i))];
    assert c.buf in Bufs(list);
    SlotInside(size, i);
    assert c.buf != b ==> Apart(size * SLOTS, c.buf, b);
  }

  // ---------- what the operations do to the books ----------

  /** Everything but the counters is in order. */
  ghost predicate Books(size: nat, mem: map<nat, nat>, blocks: seq<Chunk>, empties: seq<Chunk>,
      free: map<nat, seq<nat>>, live: set<nat>)
  {
    && size > 0 && Lists(blocks, empties) && Spread(size, All(blocks, empties))
    && AllIntact(mem, size, free, blocks, true) && AllIntact(mem, size, free, empties, false)
    && Live(size, All(blocks, empties), free, live)
  }

  lemma ReplacedIs(list: seq<Chunk>, k: nat, c: Chunk)
    requires k < |list|
    ensures Inserted(Removed(list, k), k, c) == list[k := c]
  {
  }

  lemma ListsUpdated(blocks: seq<Chunk>, empties: seq<Chunk>, k: nat, c: Chunk)
    requires Lists(blocks, empties) && k < |blocks| && c.buf == blocks[k].buf
    ensures Lists(blocks[k := c], empties) && All(blocks[k := c], empties) == All(blocks, empties)
  {
    hide Bufs, OnceEach, Ascending;
    BufsUpdated(blocks, k, c);
    assert Ascending(blocks[..|blocks| - 1]);
  }

  /** The other chunks of the list when the first free slot of chunk k is taken. */
  lemma OthersTaken(mem: map<nat, nat>, size: nat, free: map<nat, seq<nat>>, blocks: seq<Chunk>, empties: seq<Chunk>,
      k: nat, f: seq<nat>)
    requires Lists(blocks, empties) && k < |blocks| && AllIntact(mem, size, free, blocks, true)
             && AllIntact(mem, size, free, empties, false)
    ensures AllIntact(mem, size, free[blocks[k].buf := f], Removed(blocks, k), true)
    ensures AllIntact(mem, size, free[blocks[k].buf := f], empties, false)
  {
    BufListed(blocks, k);
    hide AllIntact, Bufs, Ascending, OnceEach;
    BufsErased(blocks, k);
    AllErased(mem, size, free, blocks, true, k);
    AllIntactOthers(mem, size, free, Removed(blocks, k), true, blocks[k].buf, f);
    AllIntactOthers(mem, size, free, empties, false, blocks[k].buf, f);
  }

  lemma SpreadSmaller(size: nat, more: set<nat>, bufs: set<nat>)
    requires Spread(size, more) && bufs <= more
    ensures Spread(size, bufs)
  {
  }

  /** The other chunks of both lists when slot i of chunk b, in one of them, is written. */
  lemma OthersWritten(mem: map<nat, nat>, size: nat, free: map<nat, seq<nat>>, list: seq<Chunk>, some: bool,
      bufs: set<nat>, b: nat, i: nat, x: nat, f: seq<nat>)
    requires size > 0 && AllIntact(mem, size, free, list, some) && i < SLOTS && b !in Bufs(list)
    requires Spread(size, bufs) && Bufs(list) <= bufs && b in bufs
    ensures AllIntact(mem[Slot(b, size, i) := x], size, free[b := f], list, some)
  {
    hide AllIntact, Bufs, Spread;
    SpreadSmaller(size, bufs, Bufs(list) + {b});
    AllElsewhere(mem, size, free, list, some, b, i, x, f);
  }

  lemma {:induction false} SumAtLeast(mem: map<nat, nat>, size: nat, free: map<nat, seq<nat>>, list: seq<Chunk>)
    requires AllIntact(mem, size, free, list, true)
    ensures Sum(list) >= |list|
  {
    if list != [] {
      var n := |list| - 1;
      assert list[n].free > 0;
      SumAtLeast(mem, size, free, list[..n]);
    }
  }

  lemma SlotsInOrder(size: nat, a: nat, i: nat, b: nat, j: nat)
    requires i < SLOTS && j < SLOTS && (a != b ==> Apart(size * SLOTS, a, b)) && Slot(a, size, i) < Slot(b, size, j)
    ensures Slot(a, size, i) + size <= Slot(b, size, j)
  {
    SlotInside(size, i);
    SlotInside(size, j);
    if a == b {
      if j <= i { Times(size, j, i); } else { Times(size, i, j); AtLeast(size, j - i); }
    }
  }

  /** Two live objects do not overlap. */
  lemma ObjectsApart(size: nat, bufs: set<nat>, free: map<nat, seq<nat>>, live: set<nat>, p: nat, q: nat)
    requires Spread(size, bufs) && Live(size, bufs, free, live) && p in live && q in live && p < q
    ensures p + size <= q
  {
    var a, i: nat :| LiveSlot(size, bufs, free, a, i, p);
    var b, j: nat :| LiveSlot(size, bufs, free, b, j, q);
    assert a != b ==> Apart(size * SLOTS, a, b);
    SlotsInOrder(size, a, i, b, j);
  }

  lemma BlockIntact(mem: map<nat, nat>, size: nat, free: map<nat, seq<nat>>, list: seq<Chunk>, some: bool, k: nat)
    requires AllIntact(mem, size, free, list, some) && k < |list|
    ensures Intact(mem, size, free, list[k]) && (list[k].free > 0 <==> some) && list[k].buf in Bufs(list)
  {
  }

  /** What a step does to one chunk of the first list, the others of both lists staying intact. */
  lemma Put(mem: map<nat, nat>, size: nat, free: map<nat, seq<nat>>, blocks: seq<Chunk>, k: nat, c: Chunk)
    requires k < |blocks| && AllIntact(mem, size, free, Removed(blocks, k), true) && Intact(mem, size, free, c)
             && c.free > 0
    ensures AllIntact(mem, size, free, blocks[k := c], true)
  {
    hide AllIntact, Intact;
    AllInserted(mem, size, free, Removed(blocks, k), true, k, c);
    ReplacedIs(blocks, k, c);
  }

  /** The last chunk after its first free slot is taken. */
  ghost function Less(mem: map<nat, nat>, size: nat, c: Chunk): Chunk
    requires Slot(c.buf, size, c.header) in mem && c.free > 0
  {
    Chunk(c.buf, mem[Slot(c.buf, size, c.header)], c.free - 1)
  }

  /** The slot that alloc() takes is not live, and it stays on the books as such. */
  lemma Take(size: nat, mem: map<nat, nat>, blocks: seq<Chunk>, empties: seq<Chunk>, free: map<nat, seq<nat>>,
      live: set<nat>)
    requires Books(size, mem, blocks, empties, free, live) && blocks != []
    ensures var c := blocks[|blocks| - 1];
            && Slot(c.buf, size, c.header) in mem && c.free > 0 && Slot(c.buf, size, c.header) !in live
            && c.buf in free && free[c.buf] != []
            && Intact(mem, size, free[c.buf := free[c.buf][1..]], Less(mem, size, c))
            && Live(size, All(blocks, empties), free[c.buf := free[c.buf][1..]], live + {Slot(c.buf, size, c.header)})
            && AllIntact(mem, size, free[c.buf := free[c.buf][1..]], Removed(blocks, |blocks| - 1), true)
            && AllIntact(mem, size, free[c.buf := free[c.buf][1..]], empties, false)
  {
    hide Live, AllIntact, Lists, Spread, Linked, Free, Removed, Bufs;
    var last := |blocks| - 1;
    var c := blocks[last];
    BlockIntact(mem, size, free, blocks, true, last);
    var f := free[c.buf];
    Taken(mem, size, c, f);
    LiveTaken(size, All(blocks, empties), free, live, c.buf);
    OthersTaken(mem, size, free, blocks, empties, last, f[1..]);
  }

  lemma TakeOne(size: nat, mem: map<nat, nat>, blocks: seq<Chunk>, empties: seq<Chunk>, free: map<nat, seq<nat>>,
      live: set<nat>)
    returns (n: map<nat, seq<nat>>)
    requires Books(size, mem, blocks, empties, free, live) && blocks != []
    ensures var c := blocks[|blocks| - 1];
            && Slot(c.buf, size, c.header) in mem && c.free > 0 && Slot(c.buf, size, c.header) !in live
            && (c.free > 1 ==>
                  && Books(size, mem, blocks[|blocks| - 1 := Less(mem, size, c)], empties, n,
                           live + {Slot(c.buf, size, c.header)})
                  && All(blocks[|blocks| - 1 := Less(mem, size, c)], empties) == All(blocks, empties))
            && (c.free == 1 ==>
                  var e := Inserted(empties, Lower(empties, |empties|, 0, c.buf), Less(mem, size, c));
                  && Books(size, mem, Removed(blocks, |blocks| - 1), e, n, live + {Slot(c.buf, size, c.header)})
                  && All(Removed(blocks, |blocks| - 1), e) == All(blocks, empties))
  {
    Take(size, mem, blocks, empties, free, live);
    var last := |blocks| - 1;
    var c := blocks[last];
    n := free[c.buf := free[c.buf][1..]];
    var d := Less(mem, size, c);
    hide Live, AllIntact, Lists, Spread, All, Intact, Removed, Inserted, Lower, Slot;
    ListsUpdated(blocks, empties, last, d);
    if c.free > 1 {
      Put(mem, size, n, blocks, last, d);
    } else {
      Exhausted(blocks[last := d], empties);
      ErasedReplaced(blocks, last, d);
      AllInserted(mem, size, n, empties, false, Lower(empties, |empties|, 0, c.buf), d);
    }
  }

  lemma ErasedReplaced(list: seq<Chunk>, k: nat, c: Chunk)
    requires k < |list|
    ensures Removed(list[k := c], k) == Removed(list, k)
  {
  }

  /** chunk::free() of the slot at p in chunk c. */
  function More(size: nat, c: Chunk, i: nat): Chunk { Chunk(c.buf, i, c.free + 1) }

  /** A slot of a chunk that is not exhausted is given back. */
  lemma GiveBlock(size: nat, mem: map<nat, nat>, blocks: seq<Chunk>, empties: seq<Chunk>, free: map<nat, seq<nat>>,
      live: set<nat>, k: nat, i: nat)
    requires Books(size, mem, blocks, empties, free, live) && k < |blocks|
    requires LiveSlot(size, All(blocks, empties), free, blocks[k].buf, i, Slot(blocks[k].buf, size, i))
    ensures var c := blocks[k]; var p := Slot(c.buf, size, i);
            && Books(size, mem[p := c.header], blocks[k := More(size, c, i)], empties,
                     free[c.buf := [i] + free[c.buf]], live - {p})
            && p in live && All(blocks[k := More(size, c, i)], empties) == All(blocks, empties) && c.free < SLOTS
            && c.free == |free[c.buf]|
  {
    var c := blocks[k];
    var p, f := Slot(c.buf, size, i), free[c.buf];
    hide Live, AllIntact, Lists, Spread, Linked, Removed, Free;
    BlockIntact(mem, size, free, blocks, true, k);
    Returned(mem, size, c, f, i);
    NotAll(f, i);
    LiveReturned(size, All(blocks, empties), free, live, c.buf, i);
    GiveOthers(size, mem, blocks, empties, free, k, i, c.header, [i] + f);
    Put(mem[p := c.header], size, free[c.buf := [i] + f], blocks, k, More(size, c, i));
    ListsUpdated(blocks, empties, k, More(size, c, i));
  }

  lemma GiveOthers(size: nat, mem: map<nat, nat>, blocks: seq<Chunk>, empties: seq<Chunk>, free: map<nat, seq<nat>>,
      k: nat, i: nat, x: nat, f: seq<nat>)
    requires size > 0 && Lists(blocks, empties) && Spread(size, All(blocks, empties)) && k < |blocks| && i < SLOTS
    requires AllIntact(mem, size, free, blocks, true) && AllIntact(mem, size, free, empties, false)
    ensures AllIntact(mem[Slot(blocks[k].buf, size, i) := x], size, free[blocks[k].buf := f], Removed(blocks, k), true)
    ensures AllIntact(mem[Slot(blocks[k].buf, size, i) := x], size, free[blocks[k].buf := f], empties, false)
  {
    hide AllIntact, Spread, Bufs, Ascending, Removed;
    BufsErased(blocks, k);
    AllErased(mem, size, free, blocks, true, k);
    BufListed(blocks, k);
    OthersWritten(mem, size, free, Removed(blocks, k), true, All(blocks, empties), blocks[k].buf, i, x, f);
    OthersWritten(mem, size, free, empties, false, All(blocks, empties), blocks[k].buf, i, x, f);
  }

  /** A slot of an exhausted chunk is given back. */
  lemma GiveEmpty(size: nat, mem: map<nat, nat>, blocks: seq<Chunk>, empties: seq<Chunk>, free: map<nat, seq<nat>>,
      live: set<nat>, k: nat, i: nat)
    requires Books(size, mem, blocks, empties, free, live) && k < |empties| && blocks != []
    requires LiveSlot(size, All(blocks, empties), free, empties[k].buf, i, Slot(empties[k].buf, size, i))
    ensures var c := empties[k]; var p := Slot(c.buf, size, i);
            var b := Placed(blocks, More(size, c, i));
            && Books(size, mem[p := c.header], b, Removed(empties, k), free[c.buf := [i] + free[c.buf]], live - {p})
            && p in live && All(b, Removed(empties, k)) == All(blocks, empties) && c.free == 0 && free[c.buf] == []
  {
    var c := empties[k];
    var p, f := Slot(c.buf, size, i), free[c.buf];
    var now, n := mem[p := c.header], free[c.buf := [i] + f];
    hide Live, AllIntact, Lists, Spread, Linked, Removed, Inserted, Free;
    BlockIntact(mem, size, free, empties, false, k);
    Returned(mem, size, c, f, i);
    LiveReturned(size, All(blocks, empties), free, live, c.buf, i);
    GiveOthersEmpty(size, mem, blocks, empties, free, k, i, c.header, [i] + f);
    var at := Lower(blocks, |blocks| - 1, 0, c.buf);
    AllInserted(now, size, n, blocks, true, at, More(size, c, i));
    Revived(blocks, empties, k, More(size, c, i));
  }

  lemma GiveOthersEmpty(size: nat, mem: map<nat, nat>, blocks: seq<Chunk>, empties: seq<Chunk>,
      free: map<nat, seq<nat>>, k: nat, i: nat, x: nat, f: seq<nat>)
    requires size > 0 && Lists(blocks, empties) && Spread(size, All(blocks, empties)) && k < |empties| && i < SLOTS
    requires AllIntact(mem, size, free, blocks, true) && AllIntact(mem, size, free, empties, false)
    ensures AllIntact(mem[Slot(empties[k].buf, size, i) := x], size, free[empties[k].buf := f], blocks, true)
    ensures AllIntact(mem[Slot(empties[k].buf, size, i) := x], size, free[empties[k].buf := f], Removed(empties, k),
                      false)
  {
    hide AllIntact, Spread, Bufs, Ascending, Removed, OnceEach;
    MovedFrom(blocks, empties, k);
    BufsErased(empties, k);
    AllErased(mem, size, free, empties, false, k);
    OthersWritten(mem, size, free, blocks, true, All(blocks, empties), empties[k].buf, i, x, f);
    OthersWritten(mem, size, free, Removed(empties, k), false, All(blocks, empties), empties[k].buf, i, x, f);
  }

  /** remove_chunk(): a chunk without live slots leaves the books. */
  lemma Remove(size: nat, mem: map<nat, nat>, blocks: seq<Chunk>, empties: seq<Chunk>, free: map<nat, seq<nat>>,
      live: set<nat>, k: nat)
    requires Books(size, mem, blocks, empties, free, live) && k < |blocks| && blocks[k].free == SLOTS
    ensures Books(size, mem, Removed(blocks, k), empties, free, live)
            && All(Removed(blocks, k), empties) == All(blocks, empties) - {blocks[k].buf}
  {
    hide Live, AllIntact, Lists, Spread, Linked, Removed;
    BlockIntact(mem, size, free, blocks, true, k);
    AllErased(mem, size, free, blocks, true, k);
    Dropped(blocks, empties, k);
    LiveDropped(size, All(blocks, empties), free, live, blocks[k].buf);
    SpreadSmaller(size, All(blocks, empties), All(Removed(blocks, k), empties));
  }

  /** alloc_new_chunk(): a new chunk alone in the first list. */
  lemma Add(size: nat, mem: map<nat, nat>, now: map<nat, nat>, empties: seq<Chunk>, free: map<nat, seq<nat>>,
      live: set<nat>, c: Chunk)
    requires Books(size, mem, [], empties, free, live) && SameOutside(mem, now, c.buf, size * SLOTS)
    requires ChunkOK(now, size, c, Fresh(0)) && c.free == SLOTS
    requires c.buf !in All([], empties) && Spread(size, All([], empties) + {c.buf})
    ensures Books(size, now, [c], empties, free[c.buf := Fresh(0)], live)
            && All([c], empties) == All([], empties) + {c.buf} && Sum([c]) == SLOTS
  {
    hide Live, AllIntact, Ascending, Bufs, Fresh, OnceEach, Spread, ChunkOK;
    FirstOnly(c, empties);
    assert All([], empties) == Bufs(empties) && All([c], empties) == Bufs(empties) + {c.buf};
    LiveNew(size, Bufs(empties), free, live, c.buf);
    AllOutside(mem, now, size, free, empties, false, c.buf, Fresh(0));
    FirstIntact(now, size, free[c.buf := Fresh(0)], c);
  }

  lemma FirstOnly(c: Chunk, empties: seq<Chunk>)
    requires Lists([], empties) && c.buf !in All([], empties)
    ensures Lists([c], empties) && Bufs([]) == {} && Bufs([c]) == {c.buf} && Sum([c]) == c.free
  {
    assert [c][0] == c;
    assert [c][..0] == [];
  }

  lemma FirstIntact(mem: map<nat, nat>, size: nat, free: map<nat, seq<nat>>, c: Chunk)
    requires Intact(mem, size, free, c) && c.free > 0
    ensures AllIntact(mem, size, free, [c], true)
  {
  }

  lemma InsideOnly(size: nat, bufs: set<nat>, c: Chunk, b: nat, i: nat)
    requires size > 0 && Spread(size, bufs) && c.buf in bufs && b in bufs && i < SLOTS
    ensures Inside(size, c, Slot(b, size, i)) <==> c.buf == b
  {
    SlotInside(size, i);
    assert c.buf != b ==> Apart(size * SLOTS, c.buf, b);
  }

  lemma ListedAt(list: seq<Chunk>, b: nat) returns (k: nat)
    requires b in Bufs(list)
    ensures k < |list| && list[k].buf == b
  {
    k :| 0 <= k < |list| && list[k].buf == b;
  }

  /** The search among the first `end` chunks of a list finds the chunk of a slot exactly if it is there. */
  lemma SearchFinds(size: nat, list: seq<Chunk>, end: nat, bufs: set<nat>, b: nat, i: nat)
    requires size > 0 && end <= |list| && Ascending(list[..end]) && Spread(size, bufs) && Bufs(list) <= bufs
             && b in bufs && i < SLOTS
    ensures var k := Search(size, list, end, Slot(b, size, i));
            && (k < |list| ==> list[k].buf == b)
            && (k < |list| <==> exists j :: 0 <= j < end && list[j].buf == b)
  {
    hide Spread, Bufs, Ascending, Slot, Inside;
    var p := Slot(b, size, i);
    SpreadSmaller(size, bufs, Bufs(list));
    if Search(size, list, end, p) != |list| { NotFound(size, list, end, bufs, b, i); }
    if j :| 0 <= j < end && list[j].buf == b {
      BufListed(list, j);
      InsideOnly(size, bufs, list[j], b, i);
      Found(size, list, end, j, p);
    }
  }

  lemma LowerMeets(list: seq<Chunk>, end: nat, k: nat)
    requires end <= |list| && Ascending(list[..end]) && k < end
    ensures Lower(list, end, 0, list[k].buf) == k
  {
    var front, it := list[..end], Lower(list, end, 0, list[k].buf);
    forall j | 0 <= j < k ensures list[j].buf < list[k].buf { assert front[j].buf < front[k].buf; }
  }

  /** The slot number that chunk::free() computes for the address p. */
  function SlotOf(size: nat, buf: nat, p: nat): nat
    requires size > 0 && buf <= p
  {
    (p - buf) / size
  }

  lemma SlotIndex(size: nat, b: nat, i: nat)
    requires size > 0 && i < SLOTS
    ensures var p := Slot(b, size, i); b <= p < b + size * SLOTS && SlotOf(size, b, p) == i
  {
    SlotInside(size, i);
    SlotNumber(size, i);
  }

  lemma BooksLists(size: nat, mem: map<nat, nat>, blocks: seq<Chunk>, empties: seq<Chunk>, free: map<nat, seq<nat>>,
      live: set<nat>)
    requires Books(size, mem, blocks, empties, free, live)
    ensures Lists(blocks, empties)
  {
  }

  lemma HomeOf(size: nat, bufs: set<nat>, free: map<nat, seq<nat>>, live: set<nat>, p: nat) returns (b: nat, i: nat)
    requires Live(size, bufs, free, live) && p in live
    ensures LiveSlot(size, bufs, free, b, i, p)
  {
    b, i :| LiveSlot(size, bufs, free, b, i, p);
  }

  /** _count is the number of free slots of the chunks in the first list, and the other slots are live. */
  ghost predicate Tally(blocks: seq<Chunk>, empties: seq<Chunk>, count: int, live: set<nat>) {
    count == Sum(blocks) && (|blocks| + |empties|) * SLOTS - count == |live|
  }

  lemma TallyEmpty(blocks: seq<Chunk>, empties: seq<Chunk>, count: int, live: set<nat>, k: nat, d: Chunk, p: nat)
    requires blocks != [] && k < |empties| && d.free == 1 && p in live && Tally(blocks, empties, count, live)
    ensures Tally(Placed(blocks, d), Removed(empties, k), count + 1, live - {p}) && Placed(blocks, d) != []
  {
    hide Sum;
    SumInserted(blocks, Lower(blocks, |blocks| - 1, 0, d.buf), d);
  }

  lemma TallyBlock(blocks: seq<Chunk>, empties: seq<Chunk>, count: int, live: set<nat>, k: nat, d: Chunk, p: nat)
    requires k < |blocks| && d.free == blocks[k].free + 1 && p in live && Tally(blocks, empties, count, live)
    ensures Tally(blocks[k := d], empties, count + 1, live - {p})
  {
    hide Sum;
    SumUpdated(blocks, k, d);
  }

  lemma SumErasedFull(list: seq<Chunk>, k: nat)
    requires k < |list| && Sum(list) > 2 * SLOTS && list[k].free == SLOTS
    ensures Sum(Removed(list, k)) == Sum(list) - SLOTS && Removed(list, k) != [] && |Removed(list, k)| == |list| - 1
  {
    hide Sum;
    SumErased(list, k);
    if Removed(list, k) == [] { NoSum(Removed(list, k)); }
  }

  /** What the owner of a live object writes into it does not reach the links. */
  lemma LinksKept(mem: map<nat, nat>, size: nat, bufs: set<nat>, free: map<nat, seq<nat>>, c: Chunk, b: nat, i: nat,
      off: nat, x: nat)
    requires size > 0 && off < size && Spread(size, bufs) && Intact(mem, size, free, c) && c.buf in bufs
    requires LiveSlot(size, bufs, free, b, i, Slot(b, size, i))
    ensures Intact(mem[Slot(b, size, i) + off := x], size, free, c)
  {
    hide Slot, Spread;
    var g, p := free[c.buf], Slot(b, size, i);
    forall k {:trigger g[k]} | 0 <= k < |g|
      ensures Slot(c.buf, size, g[k]) != p + off
    {
      NotInto(size, bufs, c.buf, g[k], b, i);
    }
    LinkedFrame(mem, c.buf, size, g, p + off, x);
  }

  lemma NotInto(size: nat, bufs: set<nat>, a: nat, k: nat, b: nat, i: nat)
    requires size > 0 && Spread(size, bufs) && a in bufs && b in bufs && k < SLOTS && i < SLOTS && (a != b || k != i)
    ensures Slot(a, size, k) < Slot(b, size, i) || Slot(a, size, k) >= Slot(b, size, i) + size
  {
    assert a != b ==> Apart(size * SLOTS, b, a);
    if Slot(a, size, k) == Slot(b, size, i) {
      OneHome(size, bufs, a, k, b, i);
    } else if Slot(a, size, k) > Slot(b, size, i) {
      SlotsInOrder(size, b, i, a, k);
    }
  }

  lemma OwnerWrites(size: nat, mem: map<nat, nat>, list: seq<Chunk>, some: bool, bufs: set<nat>,
      free: map<nat, seq<nat>>, b: nat, i: nat, off: nat, x: nat)
    requires size > 0 && off < size && Spread(size, bufs) && AllIntact(mem, size, free, list, some)
             && Bufs(list) <= bufs
    requires LiveSlot(size, bufs, free, b, i, Slot(b, size, i))
    ensures AllIntact(mem[Slot(b, size, i) + off := x], size, free, list, some)
  {
    forall k | 0 <= k < |list|
      ensures Intact(mem[Slot(b, size, i) + off := x], size, free, list[k])
    {
      assert list[k].buf in Bufs(list);
      LinksKept(mem, size, bufs, free, list[k], b, i, off, x);
    }
  }

  // ---------- the allocator ----------

  class Allocator {
    const size: nat                         // _element_size
    var mem: map<nat, nat>                  // the byte every slot starts with
    var blocks: seq<Chunk>                  // _block_list
    var empties: seq<Chunk>                 // _empty_list
    var count: int                          // _count
    ghost var free: map<nat, seq<nat>>      // the free slots of every chunk in the order of their links
    ghost var live: set<nat>                // the addresses handed out

    ghost predicate Valid()
      reads this
    {
      blocks != [] && Books(size, mem, blocks, empties, free, live) && Tally(blocks, empties, count, live)
    }

    ghost function Buffers(): set<nat>
      reads `blocks, `empties
    {
      All(blocks, empties)
    }

    /** obj_count(): the number of live objects. */
    function ObjCount(): (n: int)
      requires Valid()
      reads this
      ensures n == |live|
    {
      (|blocks| + |empties|) * SLOTS - count
    }

    /** chunk::init(): the slots of a new buffer are linked in a row. */
    method InitChunk(base: nat) returns (c: Chunk)
      requires size > 0
      modifies `mem
      ensures c == Chunk(base, 0, SLOTS) && ChunkOK(mem, size, c, Fresh(0))
              && SameOutside(old(mem), mem, base, size * SLOTS)
    {
      var i := 0;
      while i < SLOTS
        invariant i <= SLOTS
        invariant forall k: nat {:trigger Slot(base, size, k)} | k < i ::
                  Slot(base, size, k) in mem && mem[Slot(base, size, k)] == (k + 1) % 256
        invariant SameOutside(old(mem), mem, base, size * SLOTS)
      {
        forall k: nat | k < i ensures Slot(base, size, k) != Slot(base, size, i) { SlotsDiffer(size, k, i); }
        SlotInside(size, i);
        mem := mem[Slot(base, size, i) := (i + 1) % 256];
        i := i + 1;
      }
      FreshIs(0);
      FreshLinked(mem, base, size, 0);
      c := Chunk(base, 0, SLOTS);
    }

    /** alloc_new_chunk(), with the buffer that malloc returned. */
    method AllocNewChunk(base: nat)
      requires blocks == [] && Books(size, mem, blocks, empties, free, live)
      requires base !in Buffers() && Spread(size, Buffers() + {base})
      modifies `mem, `blocks, `count, `free
      ensures blocks != [] && Books(size, mem, blocks, empties, free, live) && count == old(count) + SLOTS
      ensures |blocks| == 1 && Sum(blocks) == SLOTS && Buffers() == old(Buffers()) + {base}
    {
      assert size > 0;
      hide Books, ChunkOK, Sum, Spread, All, Fresh, SameOutside;
      var c := InitChunk(base);
      Add(size, old(mem), mem, empties, free, live, c);
      assert blocks + [c] == [c];
      free, blocks, count := free[base := Fresh(0)], blocks + [c], count + SLOTS;
    }

    constructor (elementSize: nat, base: nat)
      requires 0 < elementSize < 65536
      ensures Valid() && live == {} && size == elementSize && Buffers() == {base}
    {
      size := elementSize;
      mem, blocks, empties, count, free, live := map[], [], [], 0, map[], {};
      new;
      AllocNewChunk(base);
    }

    /** push_to_empty_list() of the last chunk, and pop_back(). */
    method RetireLast()
      requires |blocks| > 0
      modifies `blocks, `empties
      ensures blocks == Removed(old(blocks), |old(blocks)| - 1)
      ensures var c := old(blocks)[|old(blocks)| - 1];
              empties == Inserted(old(empties), Lower(old(empties), |old(empties)|, 0, c.buf), c)
    {
      var c := blocks[|blocks| - 1];
      empties := Inserted(empties, Lower(empties, |empties|, 0, c.buf), c);
      blocks := blocks[..|blocks| - 1];
    }

    /** A slot of the last chunk that is not exhausted is handed out; base is the buffer malloc would return. */
    method Alloc(base: nat) returns (p: nat)
      requires Valid() && base !in Buffers() && Spread(size, Buffers() + {base})
      modifies `mem, `blocks, `empties, `count, `free, `live
      ensures Valid() && p !in old(live) && live == old(live) + {p}
      ensures Buffers() == if old(count) == 1 then old(Buffers()) + {base} else old(Buffers())
    {
      hide Books, Spread, Lower, All, Sum, Removed, Inserted, Slot;
      ghost var n := TakeOne(size, mem, blocks, empties, free, live);
      var last := |blocks| - 1;
      var c := blocks[last];
      p := Slot(c.buf, size, c.header);
      c := Chunk(c.buf, mem[p], c.free - 1);
      SumTaken(size, mem, blocks, empties, free, live, c);
      blocks := blocks[last := c];
      free := n;
      live := live + {p};
      if c.free == 0 {
        RetireLast();
        if blocks == [] {
          AllocNewChunk(base);
        }
      }
      count := count - 1;
    }

    /** find_chunk(): the index of the chunk of p in blocks, or |blocks|. */
    method FindChunk(p: nat, ghost b: nat, ghost i: nat) returns (k: nat)
      requires Valid() && b in Buffers() && i < SLOTS && p == Slot(b, size, i)
      ensures k <= |blocks| && (k < |blocks| ==> blocks[k].buf == b) && (k < |blocks| <==> b in Bufs(blocks))
      ensures if k < |blocks| then Freeing(size, blocks, empties, p) == InBlock(k)
              else !Freeing(size, blocks, empties, p).InBlock?
    {
      hide Bufs, AllIntact, Live, Spread, Ascending, Intact;
      var last := |blocks| - 1;
      BufListed(blocks, last);
      InsideOnly(size, All(blocks, empties), blocks[last], b, i);
      SearchFinds(size, blocks, last, All(blocks, empties), b, i);
      if b in Bufs(blocks) { ghost var j := ListedAt(blocks, b); }
      if Inside(size, blocks[last], p) {
        k := last;
      } else {
        k := Search(size, blocks, last, p);
        if k < |blocks| { BufListed(blocks, k); }
      }
    }

    /** get_from_empty_list(), with the chunk left in place: its index. */
    method FindEmpty(p: nat, ghost b: nat, ghost i: nat) returns (k: nat)
      requires Valid() && b in Bufs(empties) && i < SLOTS && p == Slot(b, size, i)
      ensures k < |empties| && empties[k].buf == b
      ensures !Freeing(size, blocks, empties, p).InBlock? ==> Freeing(size, blocks, empties, p) == FromEmpty(k)
    {
      assert empties[..|empties|] == empties;
      ghost var j := ListedAt(empties, b);
      hide Bufs, AllIntact, Live, Spread, Ascending;
      SearchFinds(size, empties, |empties|, All(blocks, empties), b, i);
      k := Search(size, empties, |empties|, p);
    }

    /** remove_chunk() */
    method RemoveChunk(c: Chunk, ghost k: nat)
      requires k < |blocks| && c == blocks[k] && Lists(blocks, empties)
      modifies `blocks
      ensures blocks == Removed(old(blocks), k)
    {
      var last := |blocks| - 1;
      assert k != last ==> blocks[last].buf != c.buf;
      if c.buf == blocks[last].buf {
        blocks := blocks[..last];
      } else {
        var it := Lower(blocks, last, 0, c.buf);
        LowerMeets(blocks, last, k);
        if it < last && blocks[it].buf == c.buf {
          blocks := blocks[..it] + blocks[it + 1..];
        }
      }
    }

    /** free() in the exhausted chunk k. */
    method FreeEmpty(p: nat, k: nat, ghost b: nat, ghost i: nat)
      requires Valid() && k < |empties| && empties[k].buf == b && LiveSlot(size, Buffers(), free, b, i, p)
      modifies `mem, `blocks, `empties, `count, `free, `live
      ensures Valid() && p in old(live) && live == old(live) - {p} && Buffers() == old(Buffers())
      ensures b in old(free) && old(free)[b] == [] && free == old(free)[b := [i] + old(free)[b]]
    {
      SlotIndex(size, b, i);
      hide Books, Slot, SlotOf, Sum, All, Placed, Removed, Bufs;
      var c := empties[k];
      GiveEmpty(size, mem, blocks, empties, free, live, k, i);
      mem := mem[p := c.header];
      var d := Chunk(c.buf, SlotOf(size, c.buf, p), c.free + 1);
      TallyEmpty(blocks, empties, count, live, k, d, p);
      hide Tally;
      empties := Removed(empties, k);
      blocks := Placed(blocks, d);
      free := free[b := [i] + free[b]];
      live := live - {p};
      count := count + 1;
    }

    /** free() in chunk k of the block list: chunk::free() and the count. */
    method PutBack(p: nat, k: nat, ghost b: nat, ghost i: nat)
      requires Valid() && k < |blocks| && blocks[k].buf == b && LiveSlot(size, Buffers(), free, b, i, p)
      modifies `mem, `blocks, `count, `free, `live
      ensures Valid() && p in old(live) && live == old(live) - {p} && b in old(free)
              && free == old(free)[b := [i] + old(free)[b]]
      ensures Buffers() == old(Buffers()) && count == old(count) + 1
      ensures k < |blocks| && blocks[k].buf == b && blocks[k].free == |free[b]|
    {
      SlotIndex(size, b, i);
      hide Books, Slot, SlotOf, Sum, All;
      var c := blocks[k];
      GiveBlock(size, mem, blocks, empties, free, live, k, i);
      mem := mem[p := c.header];
      var d := Chunk(c.buf, SlotOf(size, c.buf, p), c.free + 1);
      TallyBlock(blocks, empties, count, live, k, d, p);
      hide Tally;
      blocks := blocks[k := d];
      free := free[b := [i] + free[b]];
      live := live - {p};
      count := count + 1;
    }

    /** free() in chunk k of the block list. */
    method FreeBlock(p: nat, k: nat, ghost b: nat, ghost i: nat)
      requires Valid() && k < |blocks| && blocks[k].buf == b && LiveSlot(size, Buffers(), free, b, i, p)
      modifies `mem, `blocks, `count, `free, `live
      ensures Valid() && p in old(live) && live == old(live) - {p} && b in old(free)
              && free == old(free)[b := [i] + old(free)[b]]
      ensures Buffers() == if |free[b]| == SLOTS && old(count) + 1 > 2 * SLOTS then old(Buffers()) - {b}
              else old(Buffers())
    {
      hide Books, Sum, All, Removed, LiveSlot;
      PutBack(p, k, b, i);
      if blocks[k].free == SLOTS && count > 2 * SLOTS {
        Remove(size, mem, blocks, empties, free, live, k);
        SumErasedFull(blocks, k);
        BooksLists(size, mem, blocks, empties, free, live);
        RemoveChunk(blocks[k], k);
        count := count - SLOTS;
      }
    }

    /** A live object is given back; a chunk that is free altogether goes back too if more than 510 free slots are
        left. */
    method Free(p: nat) returns (ghost home: nat)
      requires Valid() && p in live
      modifies `mem, `blocks, `empties, `count, `free, `live
      ensures Valid() && live == old(live) - {p} && !Freeing(size, old(blocks), old(empties), p).Throws?
      ensures home in old(Buffers()) && home <= p < home + size * SLOTS
      ensures home in old(free) && home in free && |free[home]| == |old(free)[home]| + 1
      ensures Buffers() == if |free[home]| == SLOTS && old(count) + 1 > 2 * SLOTS then old(Buffers()) - {home}
              else old(Buffers())
    {
      ghost var i: nat;
      home, i := HomeOf(size, All(blocks, empties), free, live, p);
      SlotIndex(size, home, i);
      var k := FindChunk(p, home, i);
      hide Books, Slot, Bufs, Tally, Freeing;
      if k == |blocks| {
        k := FindEmpty(p, home, i);
        FreeEmpty(p, k, home, i);
      } else {
        FreeBlock(p, k, home, i);
      }
    }

    /** The owner of a live object writes a byte of it. */
    method OwnerWrite(p: nat, off: nat, x: nat)
      requires Valid() && p in live && off < size
      modifies `mem
      ensures Valid() && mem == old(mem)[p + off := x]
    {
      ghost var b, i: nat :| LiveSlot(size, All(blocks, empties), free, b, i, p);
      OwnerWrites(size, mem, blocks, true, All(blocks, empties), free, b, i, off, x);
      OwnerWrites(size, mem, empties, false, All(blocks, empties), free, b, i, off, x);
      mem := mem[p + off := x];
    }
  }

  /** The sums after a slot of the last chunk is taken. */
  lemma SumTaken(size: nat, mem: map<nat, nat>, blocks: seq<Chunk>, empties: seq<Chunk>, free: map<nat, seq<nat>>,
      live: set<nat>, c: Chunk)
    requires blocks != [] && Books(size, mem, blocks, empties, free, live)
    requires c.buf == blocks[|blocks| - 1].buf && c.free + 1 == blocks[|blocks| - 1].free
    ensures var last := |blocks| - 1; var now := blocks[last := c];
            && Sum(now) == Sum(blocks) - 1 && Removed(now, last) == Removed(blocks, last)
            && |Removed(blocks, last)| == last
            && (Sum(blocks) == 1 <==> c.free == 0 && last == 0)
            && (c.free == 0 ==> Sum(Removed(blocks, last)) == Sum(blocks) - 1)
            && forall i, d {:trigger Inserted(empties, i, d)} | 0 <= i <= |empties| ::
               |Inserted(empties, i, d)| == |empties| + 1
  {
    hide Sum, AllIntact, Lists, Live, Spread;
    var last := |blocks| - 1;
    SumAtLeast(mem, size, free, blocks);
    SumErased(blocks, last);
    SumUpdated(blocks, last, c);
    AllErased(mem, size, free, blocks, true, last);
    SumAtLeast(mem, size, free, Removed(blocks, last));
    ErasedReplaced(blocks, last, c);
    if last == 0 { NoSum(Removed(blocks, last)); }
  }

  lemma NoSum(list: seq<Chunk>)
    requires list == []
    ensures Sum(list) == 0
  {
  }
}
