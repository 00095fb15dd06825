/** Chunks of `zgame/include/amemory.h`: 255 slots of one size, the free ones linked by the byte they start with. */
module ChunkModel {
  import opened Sequences

  const SLOTS := 255          // chunk::MAX_COUNT
  const NIL := 0xFF

  /** A chunk as the lists of the allocator copy it: its buffer, the first free slot and the number of free slots. */
  datatype Chunk = Chunk(buf: nat, header: nat, free: nat)

  /** The address of slot i. */
  function Slot(buf: nat, size: nat, i: nat): nat {
    buf + size * i
  }

  function Head(f: seq<nat>): nat { if f == [] then NIL else f[0] }

  /** The free slots are linked in this order. */
  ghost predicate Linked(mem: map<nat, nat>, buf: nat, size: nat, f: seq<nat>) {
    f != [] ==>
      && Slot(buf, size, f[0]) in mem && mem[Slot(buf, size, f[0])] == Head(f[1..])
      && Linked(mem, buf, size, f[1..])
  }

  /** Slots of the chunk, none twice. */
  ghost predicate Free(f: seq<nat>) {
    |f| <= SLOTS && (forall k | 0 <= k < |f| :: f[k] < SLOTS) && forall k, m | 0 <= k < m < |f| :: f[k] != f[m]
  }

  ghost predicate ChunkOK(mem: map<nat, nat>, size: nat, c: Chunk, f: seq<nat>) {
    Free(f) && c.header == Head(f) && c.free == |f| && Linked(mem, c.buf, size, f)
  }

  lemma Times(size: nat, a: nat, b: nat)
    requires a <= b
    ensures size * b == size * a + size * (b - a) && size * a <= size * b
  {
  }

  lemma AtLeast(size: nat, n: nat)
    requires n >= 1
    ensures size * n >= size
  {
    Times(size, 1, n);
  }

  lemma SlotsDiffer(size: nat, i: nat, j: nat)
    requires 0 < size && i != j
    ensures size * i != size * j
  {
    if i < j {
      Times(size, i, j);
      AtLeast(size, j - i);
    } else {
      Times(size, j, i);
      AtLeast(size, i - j);
    }
  }

  lemma SlotInside(size: nat, i: nat)
    requires i < SLOTS
    ensures size * i + size <= size * SLOTS
  {
    Times(size, i, i + 1);
    Times(size, i + 1, SLOTS);
  }

  lemma SlotNumber(size: nat, i: nat)
    requires 0 < size
    ensures (size * i) / size == i && (size * i) % size == 0
  {
    var q, r := (size * i) / size, (size * i) % size;
    assert size * i == size * q + r && 0 <= r < size;
    if q < i {
      Times(size, q, i);
      AtLeast(size, i - q);
    } else if q > i {
      Times(size, i, q);
      AtLeast(size, q - i);
    }
  }

  /** A write that hits none of the free slots leaves their links alone. */
  lemma {:induction false} LinkedFrame(mem: map<nat, nat>, buf: nat, size: nat, f: seq<nat>, a: nat, x: nat)
    requires Linked(mem, buf, size, f) && forall k {:trigger f[k]} | 0 <= k < |f| :: Slot(buf, size, f[k]) != a
    ensures Linked(mem[a := x], buf, size, f)
  {
    if f != [] {
      assert f[0] == f[0];
      forall k {:trigger f[1..][k]} | 0 <= k < |f[1..]|
        ensures Slot(buf, size, f[1..][k]) != a
      {
        assert f[1..][k] == f[k + 1];
      }
      LinkedFrame(mem, buf, size, f[1..], a, x);
    }
  }

  /** chunk::alloc(): the first free slot is taken. */
  lemma Taken(mem: map<nat, nat>, size: nat, c: Chunk, f: seq<nat>)
    requires ChunkOK(mem, size, c, f) && f != []
    ensures Slot(c.buf, size, c.header) in mem
    ensures ChunkOK(mem, size, Chunk(c.buf, mem[Slot(c.buf, size, c.header)], c.free - 1), f[1..])
            && c.header < SLOTS && c.header !in f[1..]
  {
    forall k | 0 <= k < |f[1..]| ensures f[1..][k] != f[0] { assert f[1..][k] == f[k + 1]; }
  }

  /** chunk::free(): slot i becomes the first free one. */
  lemma Returned(mem: map<nat, nat>, size: nat, c: Chunk, f: seq<nat>, i: nat)
    requires ChunkOK(mem, size, c, f) && i !in f && i < SLOTS && 0 < size
    ensures ChunkOK(mem[Slot(c.buf, size, i) := c.header], size, Chunk(c.buf, i, c.free + 1), [i] + f)
  {
    forall k {:trigger f[k]} | 0 <= k < |f|
      ensures Slot(c.buf, size, f[k]) != Slot(c.buf, size, i)
    {
      SlotsDiffer(size, f[k], i);
    }
    LinkedFrame(mem, c.buf, size, f, Slot(c.buf, size, i), c.header);
    assert ([i] + f)[1..] == f;
    NotAll(f, i);
  }

  /** A slot that is not free: so not all are. */
  lemma NotAll(f: seq<nat>, i: nat)
    requires Free(f) && i !in f && i < SLOTS
    ensures |f| < SLOTS
  {
    hide Range, Elements, Free;
    OthersFree(f, i);
    Distinct(f);
    FewerWithout(SLOTS, i);
    Smaller(Elements(f), Range(SLOTS) - {i});
  }

  lemma FewerWithout(n: nat, i: nat)
    requires i < n
    ensures |Range(n) - {i}| == n - 1
  {
    hide Range;
  }

  ghost function Elements(f: seq<nat>): set<nat> {
    set k | 0 <= k < |f| :: f[k]
  }

  lemma OthersFree(f: seq<nat>, i: nat)
    requires Free(f) && i !in f
    ensures Elements(f) <= Range(SLOTS) - {i}
    ensures forall k, m | 0 <= k < m < |f| :: f[k] != f[m]
  {
    hide Range;
  }

  lemma {:induction false} Distinct(f: seq<nat>)
    requires forall k, m | 0 <= k < m < |f| :: f[k] != f[m]
    ensures |Elements(f)| == |f|
  {
    if f != [] {
      var n := |f| - 1;
      hide Elements;
      Distinct(f[..n]);
      LastElement(f);
    }
  }

  lemma LastElement(f: seq<nat>)
    requires f != [] && forall k, m | 0 <= k < m < |f| :: f[k] != f[m]
    ensures var n := |f| - 1; Elements(f) == Elements(f[..n]) + {f[n]} && f[n] !in Elements(f[..n])
  {
    var n := |f| - 1;
    forall x | x in Elements(f)
      ensures x in Elements(f[..n]) + {f[n]}
    {
      var k :| 0 <= k < |f| && f[k] == x;
      if k < n { assert f[..n][k] == x; }
    }
    forall x | x in Elements(f[..n])
      ensures x in Elements(f) && x != f[n]
    {
      var k :| 0 <= k < n && f[..n][k] == x;
      assert f[k] == x;
    }
  }

  ghost function Range(n: nat): (s: set<nat>)
    ensures |s| == n && forall k: nat {:trigger k in s} :: k in s <==> k < n
  {
    if n == 0 then {} else Range(n - 1) + {n - 1}
  }

  lemma {:induction false} Smaller(s: set<nat>, t: set<nat>)
    requires s <= t
    ensures |s| <= |t|
  {
    if s != {} {
      var x :| x in s;
      Smaller(s - {x}, t - {x});
    }
  }

  /** init(): slot after slot. */
  function Fresh(i: nat): seq<nat>
    requires i <= SLOTS
    decreases SLOTS - i
  {
    if i == SLOTS then [] else [i] + Fresh(i + 1)
  }

  lemma {:induction false} FreshIs(i: nat)
    requires i <= SLOTS
    ensures |Fresh(i)| == SLOTS - i && forall k | 0 <= k < |Fresh(i)| :: Fresh(i)[k] == i + k
    decreases SLOTS - i
  {
    if i < SLOTS { FreshIs(i + 1); }
  }

  /** The links that init() writes. */
  lemma {:induction false} FreshLinked(mem: map<nat, nat>, buf: nat, size: nat, i: nat)
    requires i <= SLOTS
    requires forall k: nat {:trigger Slot(buf, size, k)} | i <= k < SLOTS ::
             Slot(buf, size, k) in mem && mem[Slot(buf, size, k)] == (k + 1) % 256
    ensures Linked(mem, buf, size, Fresh(i))
    decreases SLOTS - i
  {
    if i < SLOTS {
      FreshLinked(mem, buf, size, i + 1);
      assert Slot(buf, size, i) in mem;
      assert Fresh(i)[1..] == Fresh(i + 1);
    }
  }

  // ---------- lists of chunks ----------

  ghost function Bufs(list: seq<Chunk>): set<nat> {
    set i | 0 <= i < |list| :: list[i].buf
  }

  /** Two buffers with room between them. */
  ghost predicate Apart(span: nat, a: nat, b: nat) {
    a + span < b || b + span < a
  }

  ghost predicate Ascending(list: seq<Chunk>) {
    forall i, j | 0 <= i < j < |list| :: list[i].buf < list[j].buf
  }

  ghost predicate OnceEach(list: seq<Chunk>) {
    forall i, j | 0 <= i < j < |list| :: list[i].buf != list[j].buf
  }

  function Sum(list: seq<Chunk>): nat {
    if list == [] then 0 else Sum(list[..|list| - 1]) + list[|list| - 1].free
  }

  /** std::lower_bound: the first of the first `end` chunks that is not in front of x by more than `off`. */
  function Lower(list: seq<Chunk>, end: nat, off: nat, x: nat, i: nat := 0): (r: nat)
    requires i <= end <= |list|
    ensures i <= r <= end && (r < end ==> list[r].buf + off >= x) && forall k | i <= k < r :: list[k].buf + off < x
    decreases end - i
  {
    if i < end && list[i].buf + off < x then Lower(list, end, off, x, i + 1) else i
  }

  lemma {:induction false} SumInserted(list: seq<Chunk>, i: nat, c: Chunk)
    requires i <= |list|
    ensures Sum(Inserted(list, i, c)) == Sum(list) + c.free
  {
    var n := Inserted(list, i, c);
    if i == |list| {
      assert n[..|list|] == list;
    } else {
      var last := |list| - 1;
      SumInserted(list[..last], i, c);
      assert n[..|n| - 1] == Inserted(list[..last], i, c) && n[|n| - 1] == list[last];
    }
  }

  lemma SumErased(list: seq<Chunk>, i: nat)
    requires i < |list|
    ensures Sum(Removed(list, i)) == Sum(list) - list[i].free
  {
    hide Sum;
    EraseInsert(list, i);
    SumInserted(Removed(list, i), i, list[i]);
  }

  lemma EraseInsert(list: seq<Chunk>, i: nat)
    requires i < |list|
    ensures Inserted(Removed(list, i), i, list[i]) == list
  {
    assert list == list[..i] + [list[i]] + list[i + 1..];
  }

  lemma SumUpdated(list: seq<Chunk>, i: nat, c: Chunk)
    requires i < |list|
    ensures Sum(list[i := c]) == Sum(list) - list[i].free + c.free
  {
    hide Sum;
    SumErased(list, i);
    SumErased(list[i := c], i);
    assert Removed(list[i := c], i) == Removed(list, i);
  }

  lemma BufsInserted(list: seq<Chunk>, i: nat, c: Chunk)
    requires i <= |list|
    ensures Bufs(Inserted(list, i, c)) == Bufs(list) + {c.buf}
    ensures OnceEach(list) && c.buf !in Bufs(list) ==> OnceEach(Inserted(list, i, c))
  {
    var n := Inserted(list, i, c);
    forall x | x in Bufs(list)
      ensures x in Bufs(n)
    {
      var k :| 0 <= k < |list| && list[k].buf == x;
      assert n[if k < i then k else k + 1].buf == x;
    }
    assert n[i].buf == c.buf;
    forall x | x in Bufs(n)
      ensures x in Bufs(list) + {c.buf}
    {
      var k :| 0 <= k < |n| && n[k].buf == x;
      if k != i { assert list[if k < i then k else k - 1].buf == x; }
    }
    forall k | 0 <= k < |list| ensures list[k].buf in Bufs(list) {}
  }

  lemma BufsErased(list: seq<Chunk>, i: nat)
    requires i < |list| && OnceEach(list)
    ensures Bufs(Removed(list, i)) == Bufs(list) - {list[i].buf} && OnceEach(Removed(list, i))
  {
    var n := Removed(list, i);
    forall x | x in Bufs(list) - {list[i].buf}
      ensures x in Bufs(n)
    {
      var k :| 0 <= k < |list| && list[k].buf == x;
      assert n[if k < i then k else k - 1].buf == x;
    }
    forall x | x in Bufs(n)
      ensures x in Bufs(list) - {list[i].buf}
    {
      var k :| 0 <= k < |n| && n[k].buf == x;
      assert list[if k < i then k else k + 1].buf == x;
    }
  }

  lemma BufsUpdated(list: seq<Chunk>, i: nat, c: Chunk)
    requires i < |list| && c.buf == list[i].buf
    ensures Bufs(list[i := c]) == Bufs(list)
    ensures OnceEach(list) ==> OnceEach(list[i := c])
    ensures forall n | 0 <= n <= |list| && Ascending(list[..n]) :: Ascending(list[i := c][..n])
  {
    var n := list[i := c];
    forall x | x in Bufs(list)
      ensures x in Bufs(n)
    {
      var k :| 0 <= k < |list| && list[k].buf == x;
      assert n[k].buf == x;
    }
    forall x | x in Bufs(n)
      ensures x in Bufs(list)
    {
      var k :| 0 <= k < |n| && n[k].buf == x;
      assert list[k].buf == x;
    }
  }

  lemma LowerKeepsOrder(list: seq<Chunk>, end: nat, c: Chunk)
    requires end <= |list| && Ascending(list[..end]) && c.buf !in Bufs(list)
    ensures var i := Lower(list, end, 0, c.buf); Ascending(Inserted(list, i, c)[..end + 1])
  {
    var i := Lower(list, end, 0, c.buf);
    var n := Inserted(list, i, c)[..end + 1];
    forall j: nat, k: nat | j < k < |n|
      ensures n[j].buf < n[k].buf
    {
      LowerPair(list, end, c, i, j, k);
    }
  }

  /** Two chunks, one of which may be the new one. */
  lemma LowerPair(list: seq<Chunk>, end: nat, c: Chunk, i: nat, j: nat, k: nat)
    requires i <= end <= |list| && j < k <= end && Ascending(list[..end]) && c.buf !in Bufs(list)
    requires (i < end ==> list[i].buf >= c.buf) && (i > 0 ==> list[i - 1].buf < c.buf)
    ensures Inserted(list, i, c)[j].buf < Inserted(list, i, c)[k].buf
  {
    var front := list[..end];
    if k < i {
      assert front[j].buf < front[k].buf;
    } else if k == i {
      assert front[j].buf <= front[i - 1].buf;
    } else if j < i {
      assert front[j].buf < front[k - 1].buf;
    } else if j == i {
      assert list[i].buf in Bufs(list);
      assert front[i].buf <= front[k - 1].buf;
    } else {
      assert front[j - 1].buf < front[k - 1].buf;
    }
  }
}
