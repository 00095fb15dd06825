/** The index pages of `znet/common/db.h` as mutable buffers, and the B-tree operations on them. */
module IndexTree {
  import opened Sequences
  import opened IndexModel
  import opened IndexSteps
  import opened IndexLoops
  import opened IndexFill
  import opened IndexWalk
  import opened PageSpace

  class Page {
    const index: array<Slot>
    var lPos: int
    var rPos: int
    var parentIndex: int
    var parentPos: int

    /** A page as alloc() returns it: all bytes zero. */
    constructor ()
      ensures fresh(index) && index.Length == INDEXCOUNT + 1
      ensures Zero()
    {
      index := new Slot[INDEXCOUNT + 1](_ => Slot(0, NoEntry));
      lPos, rPos, parentIndex, parentPos := 0, 0, 0, 0;
    }

    ghost predicate Zero()
      reads this, index
    {
      && (forall j | 0 <= j < index.Length :: index[j] == Slot(0, NoEntry))
      && lPos == 0 && rPos == 0 && parentIndex == 0 && parentPos == 0
    }

    method Clear()
      modifies this, index
      ensures Zero()
    {
      forall j | 0 <= j < index.Length {
        index[j] := Slot(0, NoEntry);
      }
      lPos, rPos, parentIndex, parentPos := 0, 0, 0, 0;
    }

    ghost function Val(): Content
      reads this, index
    {
      Content(index[..], lPos, rPos)
    }
  }

  method MemCopy(a: array<Slot>, dst: int, b: array<Slot>, src: int, n: int)
    requires a != b && a.Length == b.Length == INDEXCOUNT + 1
    requires 0 <= n && 0 <= dst && dst + n <= INDEXCOUNT && 0 <= src && src + n <= INDEXCOUNT
    modifies a
    ensures a[..] ==
            old(a[..dst]) + b[src..src + n] + [Slot(b[src + n].child, old(a[dst + n].e))] + old(a[dst + n + 1..])
  {
    forall k | 0 <= k < n {
      a[dst + k] := b[src + k];
    }
    a[dst + n] := Slot(b[src + n].child, a[dst + n].e);
  }

  class PageCache {
    const space: Space
    var pages: seq<Page>            // by page number; page 0 is the magic page and holds no entries
    var rootIndex: int
    ghost var g: View

    /** A new file: page 1 is the empty root. */
    constructor (space: Space)
      requires space.Valid() && space.Used() == {} && space.maxPageIdx == 0
      modifies space
      ensures this.space == space && space.Valid() && space.Used() == {1}
      ensures fresh(PageObjs()) && Tree() && Sized(S(), g, rootIndex) && g.G == [] && Foreign() == {}
    {
      var magic := new Page();
      var first := new Page();
      this.space := space;
      rootIndex := 1;
      pages := [magic, first];
      g := View([-1, 0], [0, 0], [0, 0], []);
      new;
      var idx := space.Alloc();
      rootIndex := idx;
      assert PageObjs() == {magic, magic.index, first, first.index} by {
        assert pages[0] == magic && pages[1] == first;
      }
      TwoPages();
      FreshTree(S(), g);
      hide S, PageObjs, Inv, Sized;
    }

    lemma TwoPages()
      requires |pages| == 2 && pages[0] != pages[1] && pages[0].index != pages[1].index
      requires pages[0].index.Length == pages[1].index.Length == INDEXCOUNT + 1 && pages[0].Zero() && pages[1].Zero()
      ensures Shape() && S() == Store([ZeroContent(), ZeroContent()], [0, 0], [0, 0])
    {
      assert Shape();
      assert pages[0].Val() == ZeroContent() && pages[1].Val() == ZeroContent();
    }

    ghost function PageObjs(): (o: set<object>)
      reads this`pages
      ensures this !in o && space !in o
    {
      (set i | 0 <= i < |pages| :: pages[i]) + (set i | 0 <= i < |pages| :: pages[i].index)
    }

    ghost predicate Shape()
      reads this`pages, PageObjs()
    {
      && (forall i | 0 <= i < |pages| :: pages[i].index.Length == INDEXCOUNT + 1)
      && (forall i, j | 0 <= i < j < |pages| :: pages[i] != pages[j] && pages[i].index != pages[j].index)
    }

    /** What the buffers hold. */
    ghost function S(): (s: Store)
      requires Shape()
      reads this`pages, PageObjs()
      ensures |s.pg| == |s.par| == |s.pp| == |pages|
      ensures forall i {:trigger s.pg[i]} | 0 <= i < |s.pg| :: |s.pg[i].slots| == INDEXCOUNT + 1
    {
      var ps, os := pages, PageObjs();
      Store(seq(|ps|, i requires 0 <= i < |ps| reads os => ps[i].Val()),
            seq(|ps|, i requires 0 <= i < |ps| reads os => ps[i].parentIndex),
            seq(|ps|, i requires 0 <= i < |ps| reads os => ps[i].parentPos))
    }

    // ---------- single reads and writes ----------

    function At(p: int, j: int): (x: Slot)
      requires Shape() && 0 <= p < |pages| && 0 <= j <= INDEXCOUNT
      reads this`pages, PageObjs()
      ensures x == S().pg[p].slots[j]
    {
      pages[p].index[j]
    }

    function Child(p: int, j: int): (c: nat)
      requires Shape() && 0 <= p < |pages| && 0 <= j <= INDEXCOUNT
      reads this`pages, PageObjs()
      ensures c == S().pg[p].slots[j].child
    {
      pages[p].index[j].child
    }

    function LPos(p: int): (x: int)
      requires Shape() && 0 <= p < |pages|
      reads this`pages, PageObjs()
      ensures x == S().pg[p].l
    {
      pages[p].lPos
    }

    function RPos(p: int): (x: int)
      requires Shape() && 0 <= p < |pages|
      reads this`pages, PageObjs()
      ensures x == S().pg[p].r
    {
      pages[p].rPos
    }

    function ParentIndex(p: int): (x: int)
      requires Shape() && 0 <= p < |pages|
      reads this`pages, PageObjs()
      ensures x == S().par[p]
    {
      pages[p].parentIndex
    }

    function ParentPos(p: int): (x: int)
      requires Shape() && 0 <= p < |pages|
      reads this`pages, PageObjs()
      ensures x == S().pp[p]
    {
      pages[p].parentPos
    }

    method PutSlot(p: int, j: int, x: Slot)
      requires Shape() && 0 <= p < |pages| && 0 <= j <= INDEXCOUNT
      modifies PageObjs()
      ensures unchanged(this) && Shape() && S() == WithSlot(old(S()), p, j, x)
    {
      pages[p].index[j] := x;
      assert pages[p].Val().slots == old(pages[p].Val()).slots[j := x];
    }

    method PutEntry(p: int, j: int, e: Entry)
      requires Shape() && 0 <= p < |pages| && 0 <= j <= INDEXCOUNT
      modifies PageObjs()
      ensures unchanged(this) && Shape()
      ensures S() == WithSlot(old(S()), p, j, Slot(old(S()).pg[p].slots[j].child, e))
    {
      hide S, Shape, PageObjs;
      PutSlot(p, j, Slot(Child(p, j), e));
    }

    method PutChild(p: int, j: int, k: nat)
      requires Shape() && 0 <= p < |pages| && 0 <= j <= INDEXCOUNT
      modifies PageObjs()
      ensures unchanged(this) && Shape()
      ensures S() == WithSlot(old(S()), p, j, Slot(k, old(S()).pg[p].slots[j].e))
    {
      hide S, Shape, PageObjs;
      PutSlot(p, j, Slot(k, At(p, j).e));
    }

    method PutBounds(p: int, l: int, r: int)
      requires Shape() && 0 <= p < |pages|
      modifies PageObjs()
      ensures unchanged(this) && Shape() && S() == WithBounds(old(S()), p, l, r)
    {
      pages[p].lPos, pages[p].rPos := l, r;
    }

    method PutParent(p: int, q: int, k: int)
      requires Shape() && 0 <= p < |pages|
      modifies PageObjs()
      ensures unchanged(this) && Shape() && S() == WithParent(old(S()), p, q, k)
    {
      pages[p].parentIndex, pages[p].parentPos := q, k;
    }

    method PutPlace(p: int, k: int)
      requires Shape() && 0 <= p < |pages|
      modifies PageObjs()
      ensures unchanged(this) && Shape() && S() == WithPlace(old(S()), p, k)
    {
      hide S, Shape, PageObjs;
      PutParent(p, ParentIndex(p), k);
    }

    method CopyKey(p: int, dst: int, src: int)
      requires Shape() && 0 <= p < |pages| && 0 <= dst <= INDEXCOUNT && 0 <= src <= INDEXCOUNT
      modifies PageObjs()
      ensures unchanged(this) && Shape() && S() == WithKey(old(S()), p, dst, src)
    {
      hide S, Shape, PageObjs;
      PutEntry(p, dst, At(p, src).e);
    }

    method CopyChild(p: int, dst: int, src: int)
      requires Shape() && 0 <= p < |pages| && 0 <= dst <= INDEXCOUNT && 0 <= src <= INDEXCOUNT
      modifies PageObjs()
      ensures unchanged(this) && Shape() && S() == WithChild(old(S()), p, dst, src)
    {
      hide S, Shape, PageObjs;
      PutChild(p, dst, Child(p, src));
    }

    method CopyKeyAndRight(p: int, dst: int, src: int)
      requires Shape() && 0 <= p < |pages| && 0 <= dst < INDEXCOUNT && 0 <= src < INDEXCOUNT
      modifies PageObjs()
      ensures unchanged(this) && Shape() && S() == WithKeyRight(old(S()), p, dst, src)
    {
      hide S, Shape, PageObjs;
      CopyKey(p, dst, src);
      CopyChild(p, dst + 1, src + 1);
    }

    /** memcpy of n slots and the child field behind them. */
    method CopyBlock(p: int, dst: int, q: int, src: int, n: int)
      requires Shape() && 0 <= p < |pages| && 0 <= q < |pages| && p != q
      requires 0 <= n && 0 <= dst && dst + n <= INDEXCOUNT && 0 <= src && src + n <= INDEXCOUNT
      modifies PageObjs()
      ensures unchanged(this) && Shape() && S() == WithBlock(old(S()), p, dst, q, src, n)
    {
      MemCopy(pages[p].index, dst, pages[q].index, src, n);
    }

    // ---------- sliding the content of a page ----------

    /** The slot at bgn goes to cur, and its child learns the new place. */
    method SlideOneDown(p: int, to: int, cur: int, bgn: int, ghost s: Store)
      requires Shape() && 0 <= p < |s.pg| && s.pg[p].l <= bgn < s.pg[p].r && cur - to == bgn - s.pg[p].l
      requires SlideDownDone(s, S(), p, to, bgn - s.pg[p].l)
      modifies PageObjs()
      ensures unchanged(this) && Shape() && SlideDownDone(s, S(), p, to, bgn + 1 - s.pg[p].l)
    {
      hide S, Shape, PageObjs, PlacesShifted, ChildFree, Slid, IsKid, WithSlot, WithChild, WithKeyRight;
      ghost var c := SlideDownStep(s, S(), p, to, bgn - s.pg[p].l);
      PutSlot(p, cur, At(p, bgn));
      PutPlace(Child(p, cur), cur);
    }

    /** And the last child. */
    method SlideLastDown(p: int, to: int, cur: int, bgn: int, ghost s: Store)
      requires Shape() && 0 <= p < |s.pg| && bgn == s.pg[p].r && cur - to == bgn - s.pg[p].l
      requires SlideDownDone(s, S(), p, to, bgn - s.pg[p].l) && !ChildFree(s.pg[p])
      modifies PageObjs()
      ensures unchanged(this) && Shape() && Slid(s, S(), p, S().pg[p], to)
    {
      hide S, Shape, PageObjs, PlacesShifted, ChildFree, Slid, IsKid, WithSlot, WithChild, WithKeyRight;
      ghost var c := SlideDownEnd(s, S(), p, to);
      CopyChild(p, cur, bgn);
      PutPlace(Child(p, cur), cur);
      PutBounds(p, to, cur);
    }

    method SlideDownInner(p: int, to: int)
      requires Shape() && LinkedBut(S(), p, -1) && 0 <= to <= S().pg[p].l && !ChildFree(S().pg[p])
      modifies PageObjs()
      ensures unchanged(this) && Shape() && Slid(old(S()), S(), p, S().pg[p], to)
    {
      hide S, Shape, PageObjs, PlacesShifted, ChildFree, Slid, IsKid, WithSlot, WithChild, WithKeyRight;
      ghost var s := S();
      SlideDownStart(s, p, to);
      var cur, bgn, tail := to, LPos(p), RPos(p);
      while bgn < tail
        invariant unchanged(this) && Shape()
        invariant tail == s.pg[p].r && s.pg[p].l <= bgn <= tail && cur - to == bgn - s.pg[p].l
        invariant SlideDownDone(s, S(), p, to, bgn - s.pg[p].l)
      {
        SlideOneDown(p, to, cur, bgn, s);
        cur, bgn := cur + 1, bgn + 1;
      }
      SlideLastDown(p, to, cur, bgn, s);
    }

    method SlideDownLeaf(p: int, to: int)
      requires Shape() && 0 <= p < |pages| && S().pg[p].Framed() && 0 <= to <= S().pg[p].l && ChildFree(S().pg[p])
      modifies PageObjs()
      ensures unchanged(this) && Shape() && Slid(old(S()), S(), p, S().pg[p], to)
    {
      hide S, Shape, PageObjs, PlacesShifted, Slid;
      ghost var s := S();
      var cur, bgn, tail := to, LPos(p), RPos(p);
      while bgn < tail
        invariant unchanged(this) && Shape()
        invariant tail == s.pg[p].r && s.pg[p].l <= bgn <= tail && cur - to == bgn - s.pg[p].l
        invariant LeafSlideDone(s, S(), p, to, s.pg[p].l, bgn, bgn, tail)
      {
        LeafDownStep(s, S(), p, to, bgn);
        CopyKey(p, cur, bgn);
        cur, bgn := cur + 1, bgn + 1;
      }
      LeafSlideEnd(s, S(), p, to, tail);
      PutBounds(p, to, cur);
    }

    method SlideUpInner(p: int, d: int)
      requires Shape() && LinkedBut(S(), p, -1) && !ChildFree(S().pg[p])
      requires 0 < p < |pages| && S().pg[p].Framed() && 0 < d && S().pg[p].r + d <= INDEXCOUNT
      modifies PageObjs()
      ensures unchanged(this) && Shape() && Slid(old(S()), S(), p, S().pg[p], old(S()).pg[p].l + d)
    {
      hide S, Shape, PageObjs, PlacesShifted, ChildFree, Slid, IsKid, WithSlot, WithChild, WithKeyRight, SlideUpDone,
          LinkedBut;
      ghost var s := S();
      ghost var c;
      SlideUpStart(s, p, d);
      var bgn, end := LPos(p), RPos(p);
      var tail := end;
      while tail > bgn
        invariant unchanged(this) && Shape()
        invariant bgn == s.pg[p].l && end == s.pg[p].r && bgn <= tail <= end
        invariant SlideUpDone(s, S(), p, d, tail)
      {
        c := SlideUpStep(s, S(), p, d, tail);
        CopyKeyAndRight(p, tail - 1 + d, tail - 1);
        PutPlace(Child(p, tail + d), ParentPos(Child(p, tail + d)) + d);
        tail := tail - 1;
      }
      c := SlideUpEnd(s, S(), p, d);
      CopyChild(p, bgn + d, bgn);
      PutPlace(Child(p, bgn + d), ParentPos(Child(p, bgn + d)) + d);
      PutBounds(p, bgn + d, end + d);
    }

    method SlideUpLeaf(p: int, to: int)
      requires Shape() && 0 <= p < |pages| && S().pg[p].Framed() && ChildFree(S().pg[p])
      requires S().pg[p].l < to && to + S().pg[p].Size() <= INDEXCOUNT
      modifies PageObjs()
      ensures unchanged(this) && Shape() && Slid(old(S()), S(), p, S().pg[p], to)
    {
      hide S, Shape, PageObjs, PlacesShifted, Slid;
      ghost var s := S();
      var bgn, tail := LPos(p), RPos(p);
      var end := to + (tail - bgn);
      var cur := end;
      while tail > bgn
        invariant unchanged(this) && Shape()
        invariant bgn == s.pg[p].l && bgn <= tail <= s.pg[p].r && cur - to == tail - bgn
        invariant LeafSlideDone(s, S(), p, to, tail, s.pg[p].r, bgn, tail)
      {
        LeafUpStep(s, S(), p, to, tail);
        cur, tail := cur - 1, tail - 1;
        CopyKey(p, cur, tail);
      }
      LeafSlideEnd(s, S(), p, to, bgn);
      PutBounds(p, to, end);
    }

    // ---------- opening and closing a slot ----------

    method OpenSlotRight(p: int, pos: int, e: Entry, a: nat, b: nat)
      requires Shape() && LinkedBut(S(), p, pos) && S().pg[p].l <= pos <= S().pg[p].r < INDEXCOUNT
      requires 0 < a < |pages| && 0 < b < |pages| && a != b && a != p && b != p
      modifies PageObjs()
      ensures unchanged(this) && Shape() && SlotInserted(old(S()), S(), p, S().pg[p], pos, 0, e, a, b)
    {
      hide S, Shape, PageObjs, PlacesShifted, SlotInserted, IsKid, WithSlot, WithChild, WithKeyRight;
      ghost var s := S();
      ghost var c;
      OpenRightStart(s, p, pos);
      var tail := RPos(p);
      while tail > pos
        invariant unchanged(this) && Shape() && pos <= tail <= s.pg[p].r
        invariant OpenRightDone(s, S(), p, pos, tail)
      {
        c := OpenRightStep(s, S(), p, pos, tail);
        CopyKeyAndRight(p, tail, tail - 1);
        PutPlace(Child(p, tail + 1), ParentPos(Child(p, tail + 1)) + 1);
        tail := tail - 1;
      }
      OpenRightEnd(s, S(), p, pos, e, a, b);
      PutBounds(p, LPos(p), RPos(p) + 1);
      PublishChildren(p, pos, e, a, b);
    }

    method OpenSlotLeft(p: int, pos: int, e: Entry, a: nat, b: nat)
      requires Shape() && LinkedBut(S(), p, pos) && 0 < S().pg[p].l <= pos <= S().pg[p].r
      requires 0 < a < |pages| && 0 < b < |pages| && a != b && a != p && b != p
      modifies PageObjs()
      ensures unchanged(this) && Shape() && SlotInserted(old(S()), S(), p, S().pg[p], pos, -1, e, a, b)
    {
      hide S, Shape, PageObjs, PlacesShifted, SlotInserted, IsKid, WithSlot, WithChild, WithKeyRight;
      ghost var s := S();
      ghost var c;
      OpenLeftStart(s, p, pos);
      var bgn := LPos(p) - 1;
      while bgn < pos - 1
        invariant unchanged(this) && Shape() && s.pg[p].l - 1 <= bgn < pos
        invariant OpenLeftDone(s, S(), p, pos, bgn)
      {
        c := OpenLeftStep(s, S(), p, pos, bgn);
        PutSlot(p, bgn, At(p, bgn + 1));
        PutPlace(Child(p, bgn), ParentPos(Child(p, bgn)) - 1);
        bgn := bgn + 1;
      }
      OpenLeftEnd(s, S(), p, pos, e, a, b);
      PutBounds(p, LPos(p) - 1, RPos(p));
      PublishChildren(p, pos - 1, e, a, b);
    }

    method PublishChildren(p: int, pos: int, e: Entry, a: nat, b: nat)
      requires Shape() && 0 <= p < |pages| && 0 <= pos < INDEXCOUNT && a < |pages| && b < |pages|
      modifies PageObjs()
      ensures unchanged(this) && Shape()
      ensures S() == Published(old(S()), p, pos, e, a, b)
    {
      hide S, Shape, PageObjs;
      PutSlot(p, pos, Slot(a, e));
      PutChild(p, pos + 1, b);
      PutParent(a, p, pos);
      PutParent(b, p, pos + 1);
    }

    method CloseSlotDown(p: int, ph: int)
      requires Shape() && LinkedBut(S(), p, ph + 1) && S().pg[p].l <= ph < S().pg[p].r
      modifies PageObjs()
      ensures unchanged(this) && Shape() && SlotDropped(old(S()), S(), p, S().pg[p], ph, 0)
    {
      hide S, Shape, PageObjs, PlacesShifted, SlotDropped, IsKid, WithSlot, WithChild, WithKeyRight;
      ghost var s := S();
      ghost var c;
      CloseDownStart(s, p, ph);
      var hdr, tail := ph, RPos(p) - 1;
      while hdr < tail
        invariant unchanged(this) && Shape() && ph <= hdr <= tail == s.pg[p].r - 1
        invariant CloseDownDone(s, S(), p, ph, hdr)
      {
        c := CloseDownStep(s, S(), p, ph, hdr);
        CopyKeyAndRight(p, hdr, hdr + 1);
        PutPlace(Child(p, hdr + 1), ParentPos(Child(p, hdr + 1)) - 1);
        hdr := hdr + 1;
      }
      CloseDownEnd(s, S(), p, ph);
      PutBounds(p, LPos(p), RPos(p) - 1);
    }

    /** The key in front of slot hdr, and the child behind it, move one slot up. */
    method CloseOneUp(p: int, hdr: int, ghost s: Store, ghost ph: int)
      requires Shape() && CloseUpDone(s, S(), p, ph, hdr) && s.pg[p].l < hdr
      modifies PageObjs()
      ensures unchanged(this) && Shape() && CloseUpDone(s, S(), p, ph, hdr - 1)
    {
      hide S, Shape, PageObjs, PlacesShifted, IsKid, WithSlot, WithChild, WithKeyRight;
      ghost var c := CloseUpStep(s, S(), p, ph, hdr);
      CopyKeyAndRight(p, hdr, hdr - 1);
      PutPlace(Child(p, hdr + 1), ParentPos(Child(p, hdr + 1)) + 1);
    }

    method CloseSlotUp(p: int, ph: int)
      requires Shape() && LinkedBut(S(), p, ph + 1) && S().pg[p].l <= ph < S().pg[p].r
      modifies PageObjs()
      ensures unchanged(this) && Shape() && SlotDropped(old(S()), S(), p, S().pg[p], ph, 1)
    {
      hide S, Shape, PageObjs, PlacesShifted, SlotDropped, IsKid, WithSlot, WithChild, WithKeyRight;
      ghost var s := S();
      CloseUpStart(s, p, ph);
      var hdr, bgn, end := ph, LPos(p), RPos(p);
      while hdr > bgn
        invariant unchanged(this) && Shape() && s.pg[p].l == bgn <= hdr <= ph && end == s.pg[p].r
        invariant CloseUpDone(s, S(), p, ph, hdr)
      {
        CloseOneUp(p, hdr, s, ph);
        hdr := hdr - 1;
      }
      CloseLastUp(p, bgn, end, s, ph);
    }

    /** And the child in front of the first key. */
    method CloseLastUp(p: int, bgn: int, end: int, ghost s: Store, ghost ph: int)
      requires Shape() && 0 <= p < |s.pg| && CloseUpDone(s, S(), p, ph, bgn) && bgn == s.pg[p].l && end == s.pg[p].r
      modifies PageObjs()
      ensures unchanged(this) && Shape() && SlotDropped(s, S(), p, S().pg[p], ph, 1)
    {
      hide S, Shape, PageObjs, PlacesShifted, SlotDropped, IsKid, WithSlot, WithChild, WithKeyRight;
      ghost var c := CloseUpEnd(s, S(), p, ph);
      CopyChild(p, bgn + 1, bgn);
      PutPlace(Child(p, bgn + 1), ParentPos(Child(p, bgn + 1)) + 1);
      PutBounds(p, bgn + 1, end);
    }

    // ---------- one entry of a leaf ----------

    method OpenLeafRight(p: int, pos: int, e: Entry)
      requires Shape() && 0 <= p < |pages| && S().pg[p].Framed() && ChildFree(S().pg[p])
      requires S().pg[p].l <= pos <= S().pg[p].r < INDEXCOUNT
      modifies PageObjs()
      ensures unchanged(this) && Shape() && S() == old(S()).(pg := old(S()).pg[p := S().pg[p]])
      ensures S().pg[p].Framed() && EntryAdded(old(S()).pg[p], S().pg[p], pos, 0, e)
    {
      hide S, Shape, PageObjs, WithSlot, EntryAdded;
      ghost var s := S();
      var tail, end := RPos(p), RPos(p);
      var bgn := LPos(p);
      while tail > pos
        invariant unchanged(this) && Shape() && pos <= tail <= end == s.pg[p].r
        invariant LeafOpenRightDone(s, S(), p, pos, tail)
      {
        LeafOpenRightStep(s, S(), p, pos, tail);
        CopyKey(p, tail, tail - 1);
        tail := tail - 1;
      }
      LeafOpenEnd(s, S(), p, pos, 0, e);
      PutBounds(p, bgn, end + 1);
      WriteLeaf(p, pos, e);
    }

    method OpenLeafLeft(p: int, pos: int, e: Entry)
      requires Shape() && 0 <= p < |pages| && S().pg[p].Framed() && ChildFree(S().pg[p])
      requires 0 < S().pg[p].l <= pos <= S().pg[p].r
      modifies PageObjs()
      ensures unchanged(this) && Shape() && S() == old(S()).(pg := old(S()).pg[p := S().pg[p]])
      ensures S().pg[p].Framed() && EntryAdded(old(S()).pg[p], S().pg[p], pos, -1, e)
    {
      hide S, Shape, PageObjs, WithSlot, EntryAdded;
      ghost var s := S();
      var bgn, start, end := LPos(p) - 1, LPos(p), RPos(p);
      while bgn < pos - 1
        invariant unchanged(this) && Shape() && s.pg[p].l - 1 <= bgn < pos
        invariant LeafOpenLeftDone(s, S(), p, pos, bgn)
      {
        LeafOpenLeftStep(s, S(), p, pos, bgn);
        CopyKey(p, bgn, bgn + 1);
        bgn := bgn + 1;
      }
      LeafOpenEnd(s, S(), p, pos, -1, e);
      PutBounds(p, start - 1, end);
      WriteLeaf(p, pos - 1, e);
    }

    method WriteLeaf(p: int, pos: int, e: Entry)
      requires Shape() && 0 <= p < |pages| && 0 <= pos < INDEXCOUNT
      modifies PageObjs()
      ensures unchanged(this) && Shape() && S() == LeafWritten(old(S()), p, pos, e)
    {
      hide S, Shape, PageObjs;
      PutSlot(p, pos, Slot(0, e));
      PutChild(p, pos + 1, 0);
    }

    /** Which part of a page with content c makes room at place pos: the right one if there is no room on the left, or
        if it is the shorter one and there is room on the right; else the left one, by one slot. */
    ghost function Side(c: Content, pos: int): int {
      if c.l == 0 || (c.r - pos < pos - c.l && c.r < INDEXCOUNT) then 0 else -1
    }

    /** The shorter part of the page makes room, if it has any. */
    method OpenLeaf(p: int, pos: int, e: Entry) returns (ghost d: int)
      requires Shape() && 0 <= p < |pages| && S().pg[p].Framed() && ChildFree(S().pg[p])
      requires S().pg[p].l <= pos <= S().pg[p].r && S().pg[p].Size() < INDEXCOUNT
      modifies PageObjs()
      ensures unchanged(this) && Shape() && S() == old(S()).(pg := old(S()).pg[p := S().pg[p]])
      ensures S().pg[p].Framed() && EntryAdded(old(S()).pg[p], S().pg[p], pos, d, e)
      ensures d == Side(old(S()).pg[p], pos)
    {
      hide S, Shape, PageObjs, EntryAdded;
      if LPos(p) == 0 || ((RPos(p) + LPos(p)) / 2 < pos && RPos(p) < INDEXCOUNT) {
        d := 0;
        OpenLeafRight(p, pos, e);
      } else {
        d := -1;
        OpenLeafLeft(p, pos, e);
      }
    }

    method CloseLeafDown(p: int, pos: int)
      requires Shape() && 0 <= p < |pages| && S().pg[p].Framed() && ChildFree(S().pg[p])
      requires S().pg[p].l <= pos < S().pg[p].r
      modifies PageObjs()
      ensures unchanged(this) && Shape() && S() == old(S()).(pg := old(S()).pg[p := S().pg[p]])
      ensures S().pg[p].Framed() && EntryRemoved(old(S()).pg[p], S().pg[p], pos, 0)
    {
      hide S, Shape, PageObjs, WithSlot, EntryRemoved, WithKey;
      ghost var s := S();
      var bgn, end := LPos(p), RPos(p);
      var hdr := pos;
      while hdr < end - 1
        invariant unchanged(this) && Shape() && pos <= hdr <= end - 1
        invariant LeafCloseDone(s, S(), p, pos, hdr, 0)
      {
        LeafCloseStep(s, S(), p, pos, hdr, 0);
        CopyKey(p, hdr, hdr + 1);
        hdr := hdr + 1;
      }
      LeafCloseEnd(s, S(), p, pos, 0);
      PutBounds(p, bgn, end - 1);
    }

    method CloseLeafUp(p: int, pos: int)
      requires Shape() && 0 <= p < |pages| && S().pg[p].Framed() && ChildFree(S().pg[p])
      requires S().pg[p].l <= pos < S().pg[p].r
      modifies PageObjs()
      ensures unchanged(this) && Shape() && S() == old(S()).(pg := old(S()).pg[p := S().pg[p]])
      ensures S().pg[p].Framed() && EntryRemoved(old(S()).pg[p], S().pg[p], pos, 1)
    {
      hide S, Shape, PageObjs, WithSlot, EntryRemoved, WithKey;
      ghost var s := S();
      var bgn, end := LPos(p), RPos(p);
      var hdr := pos;
      while hdr > bgn
        invariant unchanged(this) && Shape() && bgn <= hdr <= pos
        invariant LeafCloseDone(s, S(), p, pos, hdr, 1)
      {
        LeafCloseStep(s, S(), p, pos, hdr, 1);
        CopyKey(p, hdr, hdr - 1);
        hdr := hdr - 1;
      }
      LeafCloseEnd(s, S(), p, pos, 1);
      PutBounds(p, bgn + 1, end);
    }

    method CloseLeaf(p: int, pos: int) returns (ghost d: int)
      requires Shape() && 0 <= p < |pages| && S().pg[p].Framed() && ChildFree(S().pg[p])
      requires S().pg[p].l <= pos < S().pg[p].r
      modifies PageObjs()
      ensures unchanged(this) && Shape() && S() == old(S()).(pg := old(S()).pg[p := S().pg[p]])
      ensures S().pg[p].Framed() && EntryRemoved(old(S()).pg[p], S().pg[p], pos, d)
      ensures d == if old(S()).pg[p].r - pos < pos - old(S()).pg[p].l then 0 else 1
    {
      hide S, Shape, PageObjs, EntryRemoved;
      if (RPos(p) + LPos(p)) / 2 < pos {
        d := 0;
        CloseLeafDown(p, pos);
      } else {
        d := 1;
        CloseLeafUp(p, pos);
      }
    }

    // ---------- moving half a page, a whole page, or one entry ----------

    /** The children that page p had at places lo .. hi in state `s` hang below page b from now on. */
    method Adopt(ghost s: Store, ghost p: int, b: int, lo: int, hi: int, d: int)
      requires Shape() && LinkedBut(s, p, -1) && |s.pg| == |pages| && s.par == S().par && s.pp == S().pp
      requires 0 < b < |pages| && p != b && s.pg[p].l <= lo <= hi == s.pg[p].r + 1 && 0 <= lo + d
               && hi + d <= INDEXCOUNT + 1
      requires forall j {:trigger S().pg[b].slots[j]} | lo + d <= j < hi + d ::
               S().pg[b].slots[j].child == s.pg[p].slots[j - d].child
      modifies PageObjs()
      ensures unchanged(this) && Shape() && S().pg == old(S()).pg
      ensures AdoptDone(s, S(), p, b, lo, hi, d)
    {
      hide S, Shape, PageObjs, AdoptDone, IsKid;
      AdoptStart(s, S(), p, b, lo, d);
      var i := lo;
      while i < hi
        invariant unchanged(this) && Shape() && lo <= i <= hi && S().pg == old(S()).pg
        invariant AdoptDone(s, S(), p, b, lo, i, d)
      {
        AdoptStep(s, S(), p, b, lo, i, d);
        PutParent(Child(b, i + d), b, i + d);
        i := i + 1;
      }
    }

    /** The right half of page p moves to the blank page b. */
    method CutPage(p: int, b: int)
      requires Shape() && 0 < p < |pages| && 0 < b < |pages| && p != b && S().pg[p].Framed() && S().pg[b].Framed()
      requires S().pg[p].l == 0 && S().pg[p].r == INDEXCOUNT && ChildFree(S().pg[b]) && S().pg[b].l == 0
      requires if Kid(S(), p, INDEXMINL + 1) == 0 then ChildFree(S().pg[p]) else LinkedBut(S(), p, -1)
      modifies PageObjs()
      ensures unchanged(this) && Shape() && Cut(old(S()), S(), p, b, S().pg[p], S().pg[b])
    {
      hide S, Shape, PageObjs, Cut, LinkedBut, AdoptDone, WithBlock;
      ghost var s := S();
      PutBounds(b, 0, INDEXMINR);
      PutBounds(p, LPos(p), INDEXMINL);
      CopyBlock(b, 0, p, INDEXMINL + 1, INDEXMINR);
      ghost var t := S();
      CutPagesAre(s, p, b, t);
      if Child(b, 0) != 0 {
        Adopt(s, p, b, INDEXMINL + 1, INDEXCOUNT + 1, -INDEXMINL - 1);
      }
      CutEnd(s, t, S(), p, b);
    }

    /** Entry e and the used part of page b are appended to page a. */
    method JoinPage(a: int, b: int, e: Entry)
      requires Shape() && 0 < a < |pages| && 0 < b < |pages| && a != b && S().pg[a].Framed() && S().pg[b].Framed()
      requires S().pg[a].r + 1 + S().pg[b].Size() <= INDEXCOUNT
      requires if Kid(S(), b, S().pg[b].l) == 0 then ChildFree(S().pg[b]) else LinkedBut(S(), b, -1)
      modifies PageObjs()
      ensures unchanged(this) && Shape() && PagesJoined(old(S()), S(), a, b, e)
    {
      hide S, Shape, PageObjs, PagesJoined, LinkedBut, AdoptDone, WithBlock;
      ghost var s := S();
      var start, tail, first, size := LPos(a), RPos(a), LPos(b), RPos(b) - LPos(b);
      PutEntry(a, tail, e);
      CopyBlock(a, tail + 1, b, first, size);
      PutBounds(a, start, tail + 1 + size);
      ghost var t := S();
      JoinPagesAre(s, a, b, e, t);
      if Child(a, tail + 1) != 0 {
        Adopt(s, b, a, first, first + size + 1, tail + 1 - first);
      }
      JoinEnd(s, t, S(), a, b, e);
    }

    /** The separator goes to the end of leaf a, the first entry of its right neighbour b goes up. */
    method BorrowRightLeaf(q: int, ph: int, a: int, b: int)
      requires Shape() && Neighbours(S(), q, ph, a, b) && S().pg[a].r < INDEXCOUNT && S().pg[b].l < S().pg[b].r
      modifies PageObjs()
      ensures unchanged(this) && Shape() && S() == RotateLeftLeaf(old(S()), q, ph, a, b)
    {
      hide S, Shape, PageObjs;
      var tail, first := RPos(a), LPos(b);
      PutEntry(a, tail, At(q, ph).e);
      PutEntry(q, ph, At(b, first).e);
      PutBounds(a, LPos(a), tail + 1);
      PutBounds(b, first + 1, RPos(b));
    }

    method BorrowRightInner(q: int, ph: int, a: int, b: int)
      requires Shape() && Neighbours(S(), q, ph, a, b) && S().pg[a].r < INDEXCOUNT && S().pg[b].l < S().pg[b].r
      requires Kid(S(), b, S().pg[b].l) < |pages|
      modifies PageObjs()
      ensures unchanged(this) && Shape() && S() == RotateLeftInner(old(S()), q, ph, a, b)
    {
      hide S, Shape, PageObjs;
      var tail, first := RPos(a), LPos(b);
      PutEntry(a, tail, At(q, ph).e);
      PutEntry(q, ph, At(b, first).e);
      PutChild(a, tail + 1, Child(b, first));
      PutParent(Child(a, tail + 1), a, tail + 1);
      PutBounds(a, LPos(a), tail + 1);
      PutBounds(b, first + 1, RPos(b));
    }

    /** The separator goes to the front of leaf b, the last entry of its left neighbour a goes up. */
    method BorrowLeftLeaf(q: int, ph: int, a: int, b: int)
      requires Shape() && Neighbours(S(), q, ph, a, b) && 0 < S().pg[b].l && S().pg[a].l < S().pg[a].r
      modifies PageObjs()
      ensures unchanged(this) && Shape() && S() == RotateRightLeaf(old(S()), q, ph, a, b)
    {
      hide S, Shape, PageObjs;
      PutBounds(b, LPos(b) - 1, RPos(b));
      PutEntry(b, LPos(b), At(q, ph).e);
      PutBounds(a, LPos(a), RPos(a) - 1);
      PutEntry(q, ph, At(a, RPos(a)).e);
    }

    method BorrowLeftInner(q: int, ph: int, a: int, b: int)
      requires Shape() && Neighbours(S(), q, ph, a, b) && 0 < S().pg[b].l && S().pg[a].l < S().pg[a].r
      requires Kid(S(), a, S().pg[a].r) < |pages|
      modifies PageObjs()
      ensures unchanged(this) && Shape() && S() == RotateRightInner(old(S()), q, ph, a, b)
    {
      hide S, Shape, PageObjs, RotateRightLeaf;
      ghost var s := S();
      BorrowLeftLeaf(q, ph, a, b);
      RotateRightLeafIs(s, q, ph, a, b, S());
      PutChild(b, LPos(b), Child(a, RPos(a) + 1));
      PutParent(Child(b, LPos(b)), b, LPos(b));
    }

    // ---------- pages ----------

    /** The tree's pages are in use, and it is stored under the numbers it knows. */
    ghost predicate Owned()
      requires Shape()
      reads this`pages, this`g, PageObjs(), space
    {
      space.Valid() && Lengths(S(), g) && forall i {:trigger In(g, i)} | In(g, i) :: i in space.Used()
    }

    /** The used pages that do not belong to the tree. */
    ghost function Foreign(): set<nat>
      reads this, space
    {
      set i | i in space.Used() && !In(g, i)
    }

    method ClearPage(p: int)
      requires Shape() && 0 <= p < |pages|
      modifies PageObjs()
      ensures unchanged(this) && Shape()
      ensures S() == Store(old(S()).pg[p := ZeroContent()], old(S()).par[p := 0], old(S()).pp[p := 0])
    {
      pages[p].Clear();
      assert pages[p].Val() == ZeroContent();
    }

    method AppendPage()
      requires Shape() && Lengths(S(), g)
      modifies this
      ensures Shape() && rootIndex == old(rootIndex) && |pages| == old(|pages|) + 1
      ensures fresh(PageObjs() - old(PageObjs())) && old(PageObjs()) <= PageObjs()
      ensures S() == Store(old(S()).pg + [ZeroContent()], old(S()).par + [0], old(S()).pp + [0])
      ensures g == old(g).(h := old(g).h + [-1], st := old(g).st + [0], en := old(g).en + [0])
    {
      var page := new Page();
      ghost var was, ps := PageObjs(), pages;
      pages := pages + [page];
      g := g.(h := g.h + [-1], st := g.st + [0], en := g.en + [0]);
      assert page.Val() == ZeroContent();
      assert PageObjs() == was + {page, page.index} by {
        assert pages[|ps|] == page;
        assert forall i | 0 <= i < |ps| :: pages[i] == ps[i];
      }
      assert S() == Store(old(S()).pg + [ZeroContent()], old(S()).par + [0], old(S()).pp + [0]);
    }

    /** A zeroed page from the free list or from the end of the file. */
    method AllocPage() returns (b: nat)
      requires Shape() && Owned()
      modifies this, PageObjs(), space
      ensures Shape() && Owned() && rootIndex == old(rootIndex) && fresh(PageObjs() - old(PageObjs()))
      ensures b !in old(space.Used()) && space.Used() == old(space.Used()) + {b} && Foreign() == old(Foreign()) + {b}
      ensures PageAllocated(old(S()), old(g), S(), g, b) && b < |pages|
    {
      hide S, Shape, PageAllocated;
      ghost var s := S();
      b := space.Alloc();
      assert !In(g, b);
      if b < |pages| {
        ClearPage(b);
      }
      AllocStart(s, g, S(), b);
      while |pages| <= b
        invariant Shape() && space.Valid() && rootIndex == old(rootIndex) && old(PageObjs()) <= PageObjs()
                  && fresh(PageObjs() - old(PageObjs()))
        invariant space.Used() == old(space.Used()) + {b} && Lengths(S(), g)
        invariant PageAllocated(s, old(g), S(), g, b)
        decreases b - |pages|
      {
        AllocStep(s, old(g), S(), g, b);
        AppendPage();
      }
      AllocatedNodes(s, old(g), S(), g, b);
    }

    // ---------- insertion ----------

    ghost predicate Tree()
      reads this, PageObjs(), space
    {
      Shape() && Owned() && Inv(S(), g, rootIndex)
    }

    /** A page above the full root p; it becomes the root. */
    method AllocRootIndexPage() returns (q: nat)
      requires Tree() && SizedBut(S(), g, rootIndex, rootIndex)
      modifies this, PageObjs(), space
      ensures Shape() && Owned() && rootIndex == q && q < |pages|
      ensures var root := old(rootIndex);
              && Inv(S(), g, root) && SizedBut(S(), g, root, root) && In(g, root)
              && old(0 < root < |pages|) && S().pg[root] == old(S()).pg[root] && g.h[root] == old(g.h[root])
              && g.G == old(g.G)
              && S().pp[root] == old(S()).pp[root]
      ensures Blank(S(), g, q) && Foreign() == old(Foreign()) + {q}
      ensures q !in old(space.Used()) && space.Used() == old(space.Used()) + {q}
      ensures fresh(PageObjs() - old(PageObjs()))
    {
      hide S, Shape, PageObjs, Inv, SizedBut, PageAllocated, Blank;
      ghost var s, v := S(), g;
      RootAt(s, g, rootIndex);
      q := AllocPage();
      GrownRoot(s, v, S(), g, rootIndex, q);
      rootIndex := q;
    }

    /** Cuts the full page p in two; the new half b and the entry e before it wait for parent q. */
    method CutFull(p: int) returns (q: nat, pos: int, e: Entry, b: nat)
      requires Tree() && In(g, p) && S().pg[p].l == 0 && S().pg[p].r == INDEXCOUNT && SizedBut(S(), g, rootIndex, p)
      modifies this, PageObjs(), space
      ensures Shape() && Owned() && Pending(S(), g, rootIndex, q, pos, e, p, b) && SizedBut(S(), g, rootIndex, q)
      ensures q < |pages| && b < |pages| && p > 0 && g.G == old(g.G) && fresh(PageObjs() - old(PageObjs()))
              && Foreign() == old(Foreign())
      ensures if old(p == rootIndex) then rootIndex == q && S().pg[q].Size() == 0
              else (q == rootIndex || INDEXMINR <= S().pg[q].Size()) && g.h[rootIndex] == old(g.h[rootIndex])
      ensures In(g, q) && In(g, rootIndex) && g.h[q] == old(g.h[p]) + 1
    {
      hide S, Shape, Inv, SizedBut, PageAllocated, Cut, SplitReady, CutView, Blank, NodeBody, NodeAt, UpOK,
          LinkedBut, ChildFree, Pending;
      ParentOf(S(), g, rootIndex, p);
      pos := ParentPos(p);
      q := ParentIndex(p);
      ghost var root := rootIndex;
      if q == 0 {
        q := AllocRootIndexPage();
      }
      b := CutAt(p, q, root);
      e := At(p, INDEXMINL).e;
    }

    /** The right half of p goes to a fresh page b; the parent q is still to be told. */
    method CutAt(p: nat, q: int, ghost root: int) returns (b: nat)
      requires Shape() && Owned() && Inv(S(), g, root) && In(g, p) && SizedBut(S(), g, root, p)
      requires S().pg[p].l == 0 && S().pg[p].r == INDEXCOUNT
      requires if p == root then 0 < q < |pages| && Blank(S(), g, q) && q in space.Used() && rootIndex == q
               else q == S().par[p] && rootIndex == root
      modifies this, PageObjs(), space
      ensures Shape() && Owned() && rootIndex == old(rootIndex) && SizedBut(S(), g, rootIndex, q)
      ensures 0 < q < |pages| && b < |pages| && p < |pages| && old(0 < p < |S().pp|)
      ensures Pending(S(), g, rootIndex, q, old(S()).pp[p], S().pg[p].slots[INDEXMINL].e, p, b)
      ensures g.G == old(g.G) && fresh(PageObjs() - old(PageObjs())) && Foreign() == old(Foreign()) - {q}
      ensures if p == root then S().pg[q].Size() == 0
              else (q == rootIndex || INDEXMINR <= S().pg[q].Size()) && g.h[rootIndex] == old(g.h[root])
      ensures In(g, q) && In(g, rootIndex) && g.h[q] == old(g.h[p]) + 1
    {
      hide S, Shape, Inv, SizedBut, PageAllocated, Cut, SplitReady, CutView, Blank, NodeBody, NodeAt, UpOK,
          LinkedBut, ChildFree, Pending;
      ParentOf(S(), g, root, p);
      ghost var s, v := S(), g;
      b := AllocPage();
      SplitReadyIs(s, v, S(), g, root, p, q, b);
      s, v := S(), g;
      SplitLeafOrInner(s, v, root, p, q, b, rootIndex);
      CutPage(p, b);
      g := CutView(s, v, root, p, q, b);
      CutSized(Cutting(s, S(), v, g, root, p, q, b, rootIndex, S().pg[p], S().pg[b]));
    }

    /** split(): cuts the full page p in two and publishes the new half in its parent. */
    method Split(p: nat, ghost n: nat)
      requires Tree() && In(g, p) && S().pg[p].l == 0 && S().pg[p].r == INDEXCOUNT && SizedBut(S(), g, rootIndex, p)
      requires n >= 2 * (g.h[rootIndex] - g.h[p]) + 1
      modifies this, PageObjs(), space
      ensures Tree() && Sized(S(), g, rootIndex) && g.G == old(g.G)
      ensures fresh(PageObjs() - old(PageObjs())) && Foreign() == old(Foreign())
      decreases n
    {
      hide S, Shape, Inv, SizedBut, Sized, Pending;
      ParentOf(S(), g, rootIndex, p);
      var q, pos, e, b := CutFull(p);
      ghost var objs := PageObjs();
      InsertInternal(q, pos, e, p, b, n - 1);
    }

    /** The shorter part of the page makes room for an entry and a child, if it has any room. */
    method OpenSlot(p: int, pos: int, e: Entry, a: nat, b: nat) returns (ghost d: int)
      requires Shape() && LinkedBut(S(), p, pos) && S().pg[p].l <= pos <= S().pg[p].r && S().pg[p].Size() < INDEXCOUNT
      requires 0 < a < |pages| && 0 < b < |pages| && a != b && a != p && b != p
      modifies PageObjs()
      ensures unchanged(this) && Shape() && SlotInserted(old(S()), S(), p, S().pg[p], pos, d, e, a, b)
      ensures d == Side(old(S()).pg[p], pos)
    {
      LinkedFramed(p, pos);
      hide S, Shape, PageObjs, SlotInserted, LinkedBut;
      if LPos(p) == 0 || ((RPos(p) + LPos(p)) / 2 < pos && RPos(p) < INDEXCOUNT) {
        d := 0;
        OpenSlotRight(p, pos, e, a, b);
      } else {
        d := -1;
        OpenSlotLeft(p, pos, e, a, b);
      }
    }

    lemma LinkedFramed(p: int, pos: int)
      requires Shape() && LinkedBut(S(), p, pos)
      ensures 0 <= p < |pages| == |S().pg| && S().pg[p].Framed()
    {
    }

    /** Entry e and child b go behind child a of page p. */
    method InsertInternal(p: nat, pos: int, e: Entry, a: nat, b: nat, ghost n: nat)
      requires Shape() && Owned() && Pending(S(), g, rootIndex, p, pos, e, a, b) && SizedBut(S(), g, rootIndex, p)
      requires In(g, p) && In(g, rootIndex)
      requires p == rootIndex || INDEXMINR <= S().pg[p].Size()
      requires S().pg[p].Size() == INDEXCOUNT - 1 ==> n >= 2 * (g.h[rootIndex] - g.h[p]) + 2
      modifies this, PageObjs(), space
      ensures Tree() && Sized(S(), g, rootIndex) && g.G == old(g.G)
      ensures fresh(PageObjs() - old(PageObjs())) && Foreign() == old(Foreign())
      decreases n
    {
      hide S, Shape, Inv, SizedBut, Sized, SlotInserted, Pending;
      ghost var s := S();
      PendingDomains(s, g, rootIndex, p, pos, e, a, b);
      ghost var d := OpenSlot(p, pos, e, a, b);
      InsertedSized(Insertion(s, S(), g, rootIndex, p, S().pg[p], pos, d, e, a, b));
      if RPos(p) - LPos(p) == INDEXCOUNT {
        Split(p, n - 1);
      }
    }

    /** The leaf gains the entry; it may be full now. */
    method GainEntry(p: nat, pos: int, e: Entry)
      requires Tree() && Sized(S(), g, rootIndex) && In(g, p) && g.h[p] == 0 && S().pg[p].l <= pos <= S().pg[p].r
      modifies `g, PageObjs()
      ensures Tree() && In(g, p) && g.h == old(g.h) && SizedBut(S(), g, rootIndex, p)
      ensures 0 < p < |pages| && S().pg[p].Framed() && (S().pg[p].Size() < INDEXCOUNT ==> Sized(S(), g, rootIndex))
      ensures var x := old(g.st[p] + pos - S().pg[p].l); 0 <= x <= |old(g.G)| && g.G == Inserted(old(g.G), x, e)
      ensures Foreign() == old(Foreign())
    {
      hide S, Shape, Inv, SizedBut, Sized, EntryAdded, ShiftedView, Inserted, ChildFree, NodeAt;
      ghost var s, v := S(), g;
      LeafFacts(s, g, rootIndex, p);
      ghost var d := OpenLeaf(p, pos, e);
      ghost var x := v.st[p] + pos - s.pg[p].l;
      g := ShiftedView(v, x, 1, Inserted(v.G, x, e));
      GrowthSized(LeafGrowth(s, S(), v, g, rootIndex, p, S().pg[p], pos, d, e, x));
    }

    /** A new leaf entry at slot pos; the tree order gains it at the matching position. */
    method InsertLeaf(p: nat, pos: int, e: Entry)
      requires Tree() && Sized(S(), g, rootIndex) && In(g, p) && g.h[p] == 0 && S().pg[p].l <= pos <= S().pg[p].r
      modifies this, PageObjs(), space
      ensures Tree() && Sized(S(), g, rootIndex)
      ensures var x := old(g.st[p] + pos - S().pg[p].l); 0 <= x <= |old(g.G)| && g.G == Inserted(old(g.G), x, e)
      ensures fresh(PageObjs() - old(PageObjs())) && Foreign() == old(Foreign())
    {
      hide S, Shape, Inv, SizedBut, Sized, Inserted, NodeAt;
      GainEntry(p, pos, e);
      ParentOf(S(), g, rootIndex, p);
      if RPos(p) - LPos(p) == INDEXCOUNT {
        Split(p, 2 * (g.h[rootIndex] - g.h[p]) + 1);
      }
    }

    // ---------- deletion ----------

    /** p is one entry short and hangs at place ph of q; everything else is filled. */
    ghost predicate Short(p: int, q: int, ph: int)
      reads this, PageObjs(), space
    {
      && Tree() && In(g, q) && g.h[q] > 0 && SizedBut(S(), g, rootIndex, p)
      && 0 < q < |pages| && S().pg[q].Framed() && S().pg[q].l <= ph <= S().pg[q].r && p == Kid(S(), q, ph)
      && 0 < p < |pages| && S().pg[p].Size() == INDEXMINR - 1
    }

    method RShrinkLeaf(p: nat, q: nat, ph: int)
      requires Short(p, q, ph) && ph < S().pg[q].r && g.h[q] == 1 && In(g, rootIndex)
      modifies this, PageObjs(), space
      ensures Tree() && Sized(S(), g, rootIndex) && g.G == old(g.G)
      ensures pages == old(pages) && Foreign() == old(Foreign())
      decreases 2 * (g.h[rootIndex] - g.h[q]) + 2
    {
      hide S, Shape, Inv, SizedBut, Sized, Slid, RotatedView, RotateLeftLeaf, LinkedBut;
      ghost var root := rootIndex;
      NeighbourFacts(S(), g, root, q, ph);
      LeafOrInner(S(), g, root, p);
      var b := Child(q, ph + 1);
      if RPos(b) - LPos(b) > INDEXMINR {
        if RPos(p) == INDEXCOUNT {
          ghost var s := S();
          SlideDownLeaf(p, INDEXSLIPL);
          SlidSized(s, S(), g, root, p, INDEXSLIPL, p);
          NeighbourFacts(S(), g, root, q, ph);
        }
        ghost var s, v, m := S(), g, g.en[p] + 1;
        LeafOrInner(s, v, root, b);
        BorrowRightLeaf(q, ph, p, b);
        g := RotatedView(v, p, b, m);
        RotatedLeftSized(s, S(), v, g, root, q, ph, p, b, m);
      } else {
        MinimalNeighbour(S(), g, root, q, ph, p);
        MergeSibling(p, q, ph, b, p);
      }
    }

    /** Page a gets room for n more slots behind its content. */
    method MakeRoom(a: nat, n: int, ghost but: nat)
      requires Tree() && In(g, a) && SizedBut(S(), g, rootIndex, but) && 0 < a < |pages|
      requires 0 <= n && S().pg[a].Size() + n <= INDEXCOUNT
      modifies PageObjs()
      ensures unchanged(this) && Tree() && SizedBut(S(), g, rootIndex, but)
      ensures S().pg[a].Size() == old(S().pg[a].Size()) && S().pg[a].r + n <= INDEXCOUNT
      ensures forall i | 0 <= i < |pages| && i != a :: S().pg[i] == old(S()).pg[i]
      ensures if old(S().pg[a].r) + n <= INDEXCOUNT then S() == old(S()) else S().pg[a].l == 0
    {
      hide S, Shape, Inv, SizedBut, Slid, LinkedBut, ChildFree;
      LeafOrInner(S(), g, rootIndex, a);
      if INDEXCOUNT < RPos(a) + n {
        ghost var s := S();
        if Child(a, LPos(a)) != 0 {
          SlideDownInner(a, 0);
        } else {
          SlideDownLeaf(a, 0);
        }
        SlidSized(s, S(), g, rootIndex, a, 0, but);
      }
    }

    /** The content of b and the separator before it move to a; the parent q forgets b. */
    method JoinInto(a: nat, q: nat, ph: int, b: nat) returns (ghost t: Store, ghost d: int)
      requires Shape() && Lengths(S(), g) && Inv(S(), g, rootIndex) && In(g, q) && g.h[q] > 0
               && Neighbours(S(), q, ph, a, b)
      requires S().pg[a].r + 1 + S().pg[b].Size() <= INDEXCOUNT
      modifies PageObjs()
      ensures unchanged(this) && Shape()
      ensures PagesJoined(old(S()), t, a, b, old(S()).pg[q].slots[ph].e) && SlotDropped(t, S(), q, S().pg[q], ph, d)
      ensures d == if old(S()).pg[q].r - ph < ph - old(S()).pg[q].l then 0 else 1
    {
      hide S, Shape, Inv, PagesJoined, SlotDropped, LinkedBut, ChildFree, NodeAt;
      ghost var s := S();
      NeighbourFacts(s, g, rootIndex, q, ph);
      LeafOrInner(s, g, rootIndex, b);
      JoinPage(a, b, At(q, ph).e);
      t, d := S(), 0;
      JoinedParent(s, t, g, rootIndex, q, ph, a, b);
      if (RPos(q) + LPos(q)) / 2 < ph {
        CloseSlotDown(q, ph);
      } else {
        d := 1;
        CloseSlotUp(q, ph);
      }
    }

    /** Joins b, at place ph + 1 of q, to a; one of them is `but`, one entry short, the other minimal. */
    method JoinSiblings(a: nat, q: nat, ph: int, b: nat, ghost but: nat)
      requires Tree() && In(g, q) && g.h[q] > 0 && SizedBut(S(), g, rootIndex, but) && (but == a || but == b)
      requires Neighbours(S(), q, ph, a, b)
      requires S().pg[a].Size() + S().pg[b].Size() == 2 * INDEXMINR - 1
      modifies this, PageObjs(), space
      ensures Tree() && SizedBut(S(), g, rootIndex, q) && g.G == old(g.G) && rootIndex == old(rootIndex)
      ensures In(g, q) && In(g, rootIndex) && In(g, a) && g.h[q] == old(g.h[q]) && old(In(g, rootIndex))
              && g.h[rootIndex] == old(g.h[rootIndex])
      ensures 0 < q < |pages| && 0 < a < |pages| && S().pg[q].Framed()
      ensures S().pg[q].Size() < INDEXCOUNT - 1 && (q == rootIndex || S().pg[q].Size() >= INDEXMINR - 1)
      ensures S().pg[q].Size() == 0 ==> Kid(S(), q, S().pg[q].l) == a
      ensures pages == old(pages) && Foreign() == old(Foreign())
    {
      hide S, Shape, Inv, SizedBut, MergedView, PagesJoined, SlotDropped, NodeAt;
      ghost var root := rootIndex;
      NeighbourFacts(S(), g, root, q, ph);
      MakeRoom(a, RPos(b) - LPos(b) + 1, but);
      NeighbourFacts(S(), g, root, q, ph);
      ghost var s, v := S(), g;
      ghost var t, d := JoinInto(a, q, ph, b);
      g := MergedView(v, a, b);
      MergedSized(s, t, S(), v, g, root, q, ph, a, b, d, but);
      space.Free(b);
    }

    /** merge_sibling(): a join, and what the loss of one entry asks of the parent. */
    method MergeSibling(a: nat, q: nat, ph: int, b: nat, ghost but: nat)
      requires Tree() && In(g, q) && g.h[q] > 0 && SizedBut(S(), g, rootIndex, but) && (but == a || but == b)
      requires Neighbours(S(), q, ph, a, b) && In(g, rootIndex)
      requires S().pg[a].Size() + S().pg[b].Size() == 2 * INDEXMINR - 1
      modifies this, PageObjs(), space
      ensures Tree() && Sized(S(), g, rootIndex) && g.G == old(g.G)
      ensures pages == old(pages) && Foreign() == old(Foreign())
      decreases 2 * (g.h[rootIndex] - g.h[q]) + 1
    {
      hide S, Shape, Inv, SizedBut, Sized, NodeBody, UpOK;
      JoinSiblings(a, q, ph, b, but);
      ParentOf(S(), g, rootIndex, q);
      if RPos(q) - LPos(q) < INDEXMINR {
        var up := ParentIndex(q);
        if up != 0 {
          ParentHasEntry(S(), g, rootIndex, q);
          if RPos(up) == ParentPos(q) {
            LShrinkInternal(q, up, ParentPos(q) - 1);
          } else {
            RShrinkInternal(q, up, ParentPos(q));
          }
        } else if RPos(q) - LPos(q) == 0 {
          DropRoot(q, a);
        } else {
          Unmerged(S(), g, rootIndex, q);
        }
      } else {
        Unmerged(S(), g, rootIndex, q);
      }
    }

    /** The empty root q gives way to its only child a. */
    method DropRoot(q: nat, a: nat)
      requires Tree() && In(g, q) && g.h[q] > 0 && q == rootIndex && SizedBut(S(), g, q, q) && 0 < q < |pages|
               && 0 < a < |pages|
      requires S().pg[q].Framed() && S().pg[q].Size() == 0 && a == Kid(S(), q, S().pg[q].l)
      modifies this, PageObjs(), space
      ensures Tree() && Sized(S(), g, rootIndex) && g.G == old(g.G)
      ensures pages == old(pages) && Foreign() == old(Foreign())
    {
      hide S, Shape, Inv, SizedBut, Sized, WithParent;
      ghost var s, v := S(), g;
      PutParent(a, 0, 0);
      rootIndex := a;
      g := v.(h := v.h[q := -1]);
      CollapsedSized(s, S(), v, g, q, a);
      space.Free(q);
    }

    method RShrinkInternal(p: nat, q: nat, ph: int)
      requires Short(p, q, ph) && ph < S().pg[q].r && g.h[q] > 1 && In(g, rootIndex)
      modifies this, PageObjs(), space
      ensures Tree() && Sized(S(), g, rootIndex) && g.G == old(g.G)
      ensures pages == old(pages) && Foreign() == old(Foreign())
      decreases 2 * (g.h[rootIndex] - g.h[q]) + 2
    {
      hide S, Shape, Inv, SizedBut, Sized, Slid, RotatedView, RotateLeftInner, LinkedBut;
      ghost var root := rootIndex;
      NeighbourFacts(S(), g, root, q, ph);
      LeafOrInner(S(), g, root, p);
      var b := Child(q, ph + 1);
      if RPos(b) - LPos(b) > INDEXMINR {
        if RPos(p) == INDEXCOUNT {
          ghost var s := S();
          SlideDownInner(p, INDEXSLIPL);
          SlidSized(s, S(), g, root, p, INDEXSLIPL, p);
          NeighbourFacts(S(), g, root, q, ph);
        }
        ghost var s, v := S(), g;
        LeafOrInner(s, v, root, b);
        ghost var m := v.en[Kid(s, b, s.pg[b].l)];
        BorrowRightInner(q, ph, p, b);
        g := RotatedView(v, p, b, m);
        RotatedLeftSized(s, S(), v, g, root, q, ph, p, b, m);
      } else {
        MinimalNeighbour(S(), g, root, q, ph, p);
        MergeSibling(p, q, ph, b, p);
      }
    }

    method LShrinkLeaf(p: nat, q: nat, ph: int)
      requires ph >= 0 && Short(p, q, ph + 1) && S().pg[q].l <= ph && g.h[q] == 1 && In(g, rootIndex)
      modifies this, PageObjs(), space
      ensures Tree() && Sized(S(), g, rootIndex) && g.G == old(g.G)
      ensures pages == old(pages) && Foreign() == old(Foreign())
      decreases 2 * (g.h[rootIndex] - g.h[q]) + 2
    {
      hide S, Shape, Inv, SizedBut, Sized, Slid, RotatedView, RotateRightLeaf, LinkedBut;
      ghost var root := rootIndex;
      NeighbourFacts(S(), g, root, q, ph);
      LeafOrInner(S(), g, root, p);
      var a := Child(q, ph);
      if RPos(a) - LPos(a) > INDEXMINR {
        if LPos(p) == 0 {
          ghost var s := S();
          SlideUpLeaf(p, INDEXSLIPR);
          SlidSized(s, S(), g, root, p, INDEXSLIPR, p);
          NeighbourFacts(S(), g, root, q, ph);
        }
        ghost var s, v, m := S(), g, g.en[a] - 1;
        LeafOrInner(s, v, root, a);
        BorrowLeftLeaf(q, ph, a, p);
        g := RotatedView(v, a, p, m);
        RotatedRightSized(s, S(), v, g, root, q, ph, a, p, m);
      } else {
        MinimalNeighbour(S(), g, root, q, ph, p);
        MergeSibling(a, q, ph, p, p);
      }
    }

    method LShrinkInternal(p: nat, q: nat, ph: int)
      requires ph >= 0 && Short(p, q, ph + 1) && S().pg[q].l <= ph && g.h[q] > 1 && In(g, rootIndex)
      modifies this, PageObjs(), space
      ensures Tree() && Sized(S(), g, rootIndex) && g.G == old(g.G)
      ensures pages == old(pages) && Foreign() == old(Foreign())
      decreases 2 * (g.h[rootIndex] - g.h[q]) + 2
    {
      hide S, Shape, Inv, SizedBut, Sized, Slid, RotatedView, RotateRightInner, LinkedBut;
      ghost var root := rootIndex;
      NeighbourFacts(S(), g, root, q, ph);
      LeafOrInner(S(), g, root, p);
      var a := Child(q, ph);
      if RPos(a) - LPos(a) > INDEXMINR {
        if LPos(p) == 0 {
          ghost var s := S();
          SlideUpInner(p, INDEXSLIPR);
          SlidSized(s, S(), g, root, p, INDEXSLIPR, p);
          NeighbourFacts(S(), g, root, q, ph);
        }
        ghost var s, v := S(), g;
        LeafOrInner(s, v, root, a);
        ghost var m := v.st[Kid(s, a, s.pg[a].r)] - 1;
        BorrowLeftInner(q, ph, a, p);
        g := RotatedView(v, a, p, m);
        RotatedRightSized(s, S(), v, g, root, q, ph, a, p, m);
      } else {
        MinimalNeighbour(S(), g, root, q, ph, p);
        MergeSibling(a, q, ph, p, p);
      }
    }

    /** The leaf loses the entry; it may be one short now. */
    method LoseEntry(p: nat, pos: int)
      requires Tree() && Sized(S(), g, rootIndex) && In(g, p) && g.h[p] == 0 && S().pg[p].l <= pos < S().pg[p].r
      modifies `g, PageObjs()
      ensures Tree() && In(g, p) && In(g, rootIndex) && g.h == old(g.h) && SizedBut(S(), g, rootIndex, p)
      ensures 0 < p < |pages| && S().pg[p].Framed() && (p == rootIndex || S().pg[p].Size() >= INDEXMINR - 1)
      ensures p == rootIndex || S().pg[p].Size() >= INDEXMINR ==> Sized(S(), g, rootIndex)
      ensures var x := old(Position(S(), g, p, pos)); 0 <= x < |old(g.G)| && g.G == Removed(old(g.G), x)
      ensures Foreign() == old(Foreign())
    {
      hide S, Shape, Inv, SizedBut, Sized, EntryRemoved, ShiftedView, Removed, ChildFree, UpOK, NodeBody;
      ghost var s, v := S(), g;
      LeafFacts(s, v, rootIndex, p);
      PositionAt(s, v, rootIndex, p, pos);
      ghost var d := CloseLeaf(p, pos);
      ghost var x := v.st[p] + pos - s.pg[p].l;
      g := ShiftedView(v, x, -1, Removed(v.G, x));
      LossSized(LeafLoss(s, S(), v, g, rootIndex, p, S().pg[p], pos, d, x));
    }

    method RemoveLeaf(p: nat, pos: int)
      requires Tree() && Sized(S(), g, rootIndex) && In(g, p) && g.h[p] == 0 && S().pg[p].l <= pos < S().pg[p].r
      modifies this, PageObjs(), space
      ensures Tree() && Sized(S(), g, rootIndex)
      ensures var x := old(Position(S(), g, p, pos)); 0 <= x < |old(g.G)| && g.G == Removed(old(g.G), x)
      ensures pages == old(pages) && Foreign() == old(Foreign())
    {
      hide S, Shape, Inv, SizedBut, Sized, Removed, UpOK, NodeBody;
      LoseEntry(p, pos);
      if RPos(p) - LPos(p) < INDEXMINR {
        ParentOf(S(), g, rootIndex, p);
        var q := ParentIndex(p);
        if q != 0 {
          ParentHasEntry(S(), g, rootIndex, p);
          if RPos(q) == ParentPos(p) {
            LShrinkLeaf(p, q, ParentPos(p) - 1);
          } else {
            RShrinkLeaf(p, q, ParentPos(p));
          }
        }
      }
    }

    /** The last leaf below page p. */
    method RightMostLeaf(p: nat) returns (q: nat)
      requires Tree() && In(g, p)
      ensures In(g, q) && g.h[q] == 0 && g.en[q] == g.en[p] && (q == p || q != rootIndex)
      ensures 0 < q < |pages| && S().pg[q].Framed()
    {
      hide S, Shape, Inv, ChildFree, LinkedBut;
      q := p;
      LeafOrInner(S(), g, rootIndex, q);
      while Child(q, RPos(q)) != 0
        invariant Tree()
        invariant In(g, q) && g.en[q] == g.en[p] && (q == p || q != rootIndex) && 0 < q < |pages| && S().pg[q].Framed()
        invariant S().pg[q].slots[S().pg[q].r].child == 0 <==> g.h[q] == 0
        invariant Lengths(S(), g)
        decreases g.h[q]
      {
        RightChild(S(), g, rootIndex, q);
        q := Child(q, RPos(q));
        LeafOrInner(S(), g, rootIndex, q);
      }
    }

    /** The entry before slot pos of inner page p replaces it and leaves its leaf. */
    method RemoveInternal(p: nat, pos: int)
      requires Tree() && Sized(S(), g, rootIndex) && In(g, p) && g.h[p] > 0 && S().pg[p].l <= pos < S().pg[p].r
      modifies this, PageObjs(), space
      ensures Tree() && Sized(S(), g, rootIndex)
      ensures var x := old(Position(S(), g, p, pos)); 0 <= x < |old(g.G)| && g.G == Removed(old(g.G), x)
      ensures pages == old(pages) && Foreign() == old(Foreign())
    {
      hide S, Shape, Inv, Sized, Removed, ChildFree, NodeBody, UpOK, LinkedBut;
      ghost var s, v := S(), g;
      PositionAt(s, v, rootIndex, p, pos);
      ghost var x := Position(s, v, p, pos);
      ChildNotRoot(s, v, rootIndex, p, pos);
      var q := RightMostLeaf(Child(p, pos));
      var last := RPos(q) - 1;
      LastOfLeaf(s, v, rootIndex, q);
      PositionAt(s, v, rootIndex, q, last);
      PutEntry(p, pos, At(q, last).e);
      g := v.(G := v.G[x := v.G[x - 1]]);
      OverwriteSized(Overwrite(s, S(), v, g, rootIndex, p, pos, S().pg[p], v.G[x - 1], x));
      RemovePredecessor(v.G, x);
      RemoveLeaf(q, last);
    }

    /** The entry at slot pos of page p is overwritten in place. */
    method Replace(p: nat, pos: int, e: Entry)
      requires Tree() && Sized(S(), g, rootIndex) && In(g, p) && S().pg[p].l <= pos < S().pg[p].r
      modifies this, PageObjs()
      ensures Tree() && Sized(S(), g, rootIndex)
      ensures var x := old(Position(S(), g, p, pos)); 0 <= x < |old(g.G)| && g.G == old(g.G)[x := e]
      ensures pages == old(pages) && Foreign() == old(Foreign())
    {
      hide S, Shape, Inv, Sized, ChildFree, NodeBody, UpOK, LinkedBut;
      ghost var s, v := S(), g;
      PositionAt(s, v, rootIndex, p, pos);
      ghost var x := Position(s, v, p, pos);
      LeafOrInner(s, v, rootIndex, p);
      PutEntry(p, pos, e);
      g := v.(G := v.G[x := e]);
      OverwriteSized(Overwrite(s, S(), v, g, rootIndex, p, pos, S().pg[p], e, x));
    }

    /** remove(): the entry at slot pos of page p leaves the tree. */
    method Remove(p: nat, pos: int)
      requires Tree() && Sized(S(), g, rootIndex) && In(g, p) && S().pg[p].l <= pos < S().pg[p].r
      modifies this, PageObjs(), space
      ensures Tree() && Sized(S(), g, rootIndex)
      ensures var x := old(Position(S(), g, p, pos)); 0 <= x < |old(g.G)| && g.G == Removed(old(g.G), x)
      ensures pages == old(pages) && Foreign() == old(Foreign())
    {
      hide S, Shape, Inv, Sized, Removed;
      LeafOrInner(S(), g, rootIndex, p);
      if Child(p, pos) != 0 {
        RemoveInternal(p, pos);
      } else {
        RemoveLeaf(p, pos);
      }
    }

    // ---------- the first entry, and walking ----------

    /** insert_init_node() and the entry its caller writes: the empty root gets one entry. */
    method InsertFirst(e: Entry)
      requires Tree() && Sized(S(), g, rootIndex) && S().pg[rootIndex].Size() == 0
      modifies this, PageObjs()
      ensures Tree() && Sized(S(), g, rootIndex) && old(g.G) == [] && g.G == [e]
      ensures pages == old(pages) && Foreign() == old(Foreign())
    {
      hide S, Shape, Inv, Sized, FirstWritten;
      ghost var s, v := S(), g;
      RootAt(s, v, rootIndex);
      PutFirst(rootIndex, e);
      g := View(v.h, v.st, v.en[rootIndex := 1], [e]);
      FirstSized(s, v, rootIndex, e, S(), g);
    }

    method PutFirst(p: int, e: Entry)
      requires Shape() && 0 <= p < |pages|
      modifies PageObjs()
      ensures unchanged(this) && Shape() && S() == FirstWritten(old(S()), p, e)
    {
      hide S, Shape, PageObjs;
      PutBounds(p, INDEXMINR, INDEXMINR + 1);
      WriteLeaf(p, INDEXMINR, e);
    }

    /** left_most(): the first slot below page p, if there is one. */
    method LeftMost(p: nat) returns (found: bool, q: nat, pos: int)
      requires Tree() && Sized(S(), g, rootIndex) && In(g, p)
      ensures Tree() && S() == old(S()) && Lengths(S(), g) && (found <==> g.st[p] < g.en[p])
      ensures found ==> In(g, q) && 0 < q < |pages| && S().pg[q].l <= pos < S().pg[q].r
      ensures found ==> Lengths(S(), g) && 0 <= pos < |S().pg[q].slots| && Position(S(), g, q, pos) == g.st[p]
    {
      hide S, Shape, Inv, Sized, ChildFree, LinkedBut;
      q := p;
      LeafOrInner(S(), g, rootIndex, q);
      while Child(q, LPos(q)) != 0
        invariant Tree() && Sized(S(), g, rootIndex) && S() == old(S())
        invariant In(g, q) && g.st[q] == g.st[p] && (q == p || q != rootIndex) && 0 < q < |pages| && S().pg[q].Framed()
        invariant S().pg[q].slots[S().pg[q].l].child == 0 <==> g.h[q] == 0
        invariant Lengths(S(), g) && g.en[q] <= g.en[p]
        decreases g.h[q]
      {
        LeftChild(S(), g, rootIndex, q);
        q := Child(q, LPos(q));
        LeafOrInner(S(), g, rootIndex, q);
      }
      pos := LPos(q);
      found := pos < RPos(q);
      FirstOfLeaf(S(), g, rootIndex, q);
    }

    /** next(): the slot one position further in the order of the whole tree. */
    method Next(p: nat, pos: int) returns (found: bool, q: nat, k: int)
      requires Tree() && Sized(S(), g, rootIndex) && In(g, p) && S().pg[p].l <= pos < S().pg[p].r
      ensures Tree() && S() == old(S()) && Lengths(S(), g) && 0 <= pos < |S().pg[p].slots|
      ensures found <==> Position(S(), g, p, pos) + 1 < |g.G|
      ensures found ==> In(g, q) && 0 < q < |pages| && S().pg[q].l <= k < S().pg[q].r && 0 <= k < |S().pg[q].slots|
      ensures found ==> Position(S(), g, q, k) == Position(S(), g, p, pos) + 1
    {
      hide S, Shape, Inv, Sized;
      NextRank(S(), g, rootIndex, p, pos);
      if Child(p, pos + 1) != 0 {
        var c := Child(p, pos + 1);
        NonEmpty(S(), g, rootIndex, c);
        found, q, k := LeftMost(c);
        return;
      }
      if pos + 1 < RPos(p) {
        return true, p, pos + 1;
      }
      found, q, k := Climb(p);
    }

    /** The entry behind everything below page p. */
    method Climb(p: nat) returns (found: bool, q: nat, k: int)
      requires Tree() && Sized(S(), g, rootIndex) && In(g, p)
      ensures Tree() && S() == old(S()) && (found <==> g.en[p] < |g.G|)
      ensures found ==> In(g, q) && 0 < q < |pages| && S().pg[q].l <= k < S().pg[q].r && 0 <= k < |S().pg[q].slots|
      ensures found ==> Lengths(S(), g) && Position(S(), g, q, k) == g.en[p]
    {
      hide S, Shape, Inv, Sized, NodeBody, UpOK;
      var end := p;
      ParentOf(S(), g, rootIndex, p);
      while ParentIndex(end) != 0
        invariant Tree() && S() == old(S()) && In(g, end) && 0 < end < |pages| && Lengths(S(), g)
                  && g.en[end] == g.en[p]
        invariant end == rootIndex <==> S().par[end] == 0
        decreases g.h[rootIndex] - g.h[end]
      {
        UpRank(S(), g, rootIndex, end);
        var parent := ParentIndex(end);
        if ParentPos(end) < RPos(parent) {
          return true, parent, ParentPos(end);
        }
        ParentOf(S(), g, rootIndex, parent);
        end := parent;
      }
      RootEnds(S(), g, rootIndex);
      return false, 0, 0;
    }
  }
}
