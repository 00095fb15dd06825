/** The operations of `znet/common/db.h` on one table, over the index tree and the data pages. */
module Database {
  import opened Sequences
  import opened Keys
  import opened PageSpace
  import opened DataModel
  import opened RecordModel
  import opened DataStore
  import opened IndexModel
  import opened IndexSteps
  import opened IndexFill
  import opened IndexWalk
  import opened IndexTree
  import opened MapModel

  const COUNTERS := 0x1_0000_0000     // counter_t has 32 bits

  datatype Option<T> = None | Some(value: T)

  class Table {
    const space: Space
    const index: PageCache
    const data: DataPages
    var inserted: nat               // _insert and _remove_found of the performance counters
    var removed: nat
    ghost var K: seq<Pair>          // all pairs in key order

    /** The index tree and the data pages are whole, and share the pages of the file. */
    ghost predicate Whole()
      reads index, index.PageObjs(), data, space
    {
      && Parts() && index.space == space && data.space == space
      && index.Tree() && Sized(index.S(), index.g, index.rootIndex) && data.Valid() && index.Foreign() == data.pages
    }

    /** The index tree and the data pages together hold the pairs K. */
    ghost predicate Valid()
      reads this, index, index.PageObjs(), data, space
    {
      Whole() && Filed(index.g.G, K, data.Data()) && Ascending(K) && Short(K) && Counted()
    }

    /** The table can be searched for this key.  The empty key compares as smaller with any entry, whatever the
        table holds. */
    ghost predicate Ready(key: seq<byte>)
      reads this, index, index.PageObjs(), data, space
    {
      |key| < KEYLIMIT && Whole() && if key == [] then Modest(index.g.G) else Valid()
    }

    /** The two counters differ by the number of pairs, as far as 32 bits go. */
    ghost predicate Counted()
      reads this
    {
      inserted < COUNTERS && removed < COUNTERS && (inserted - removed - |K|) % COUNTERS == 0
    }

    ghost predicate Parts()
      reads index`pages
    {
      this !in index.PageObjs() && data !in index.PageObjs() && space !in index.PageObjs() && index !in index.PageObjs()
    }

    /** The table as a finite map. */
    ghost function Map(): map<seq<byte>, seq<byte>>
      reads this`K
    {
      MapOf(K)
    }

    /** A new table. */
    constructor ()
      ensures Valid() && Map() == map[] && index.g.G == [] && inserted == removed == 0
      ensures fresh(space) && fresh(index) && fresh(index.PageObjs()) && fresh(data)
    {
      hide Inv, Sized, DataPages.Valid, DataPages.Data, PageCache.Shape, PageCache.S, PageCache.Tree,
          PageCache.Foreign, Filed, Ascending, Short, MapOf;
      var sp := new Space();
      var ix := new PageCache(sp);
      space, index := sp, ix;
      data := new DataPages(sp);
      inserted, removed, K := 0, 0, [];
      new;
      NothingFiled();
    }

    // ---------- search ----------

    /** compare(): a key against the full key k0 of an entry.  The entry that is made from a key compares as equal
        to that key if and only if the key is not empty. */
    method Compare(e: Entry, key: seq<byte>, ghost k0: seq<byte>, ghost val: seq<byte>) returns (r: int)
      requires data.Valid() && |key| < KEYLIMIT && |k0| < KEYLIMIT
      requires if key == [] then e.keyLen < KEYLIMIT
               else Stands(e, k0) && At(e) in data.Data() && Encodes(data.Data()[At(e)], k0, val)
      ensures if key == [] then r < 0 else SameSign(r, Cmp(key, k0))
      ensures e == Abbreviate(key, At(e)) && k0 == key ==> (r == 0 <==> key != [])
    {
      hide DataPages.Valid, Encodes, Cmp;
      CmpZero(key, k0);
      if e.keyLen != 0 {
        var n := if |key| < e.keyLen then |key| else e.keyLen;
        CmpCommon(key, k0, n);
        var comp := MemCmpFast(key, e.key, n);
        return if comp != 0 then comp else AsInt(|key| - e.keyLen);
      }
      if |key| <= INLINE {
        CmpCommon(key, k0, |key|);
        if key != [] { InlineBegins(e, k0, |key|); }
        var comp := MemCmpFast(key, e.key, |key|);
        return if comp != 0 then comp else -1;
      }
      CmpCommon(key, k0, INLINE);
      InlineBegins(e, k0, INLINE);
      var comp := MemCmpFast(key, e.key, INLINE);
      if comp != 0 {
        return comp;
      }
      r := data.CompareRecord(At(e), key, k0, val);
    }

    /** Slot j of page p has the entry at its position. */
    lemma SlotModest(p: nat, j: int)
      requires Whole() && Modest(index.g.G) && In(index.g, p) && index.S().pg[p].l <= j < index.S().pg[p].r
      ensures data.Valid() && index.Shape() && p < |index.pages| && index.S().pg[p].Framed()
              && index.S().pg[p].slots[j].e.keyLen < KEYLIMIT
    {
      hide PageCache.S, PageCache.Shape, Inv, Sized, DataPages.Valid, DataPages.Data;
      GapAt(index.S(), index.g, index.rootIndex, p, j);
    }

    /** Slot j of page p carries the pair at its position. */
    lemma SlotCarries(p: nat, j: int)
      requires Valid() && In(index.g, p) && index.S().pg[p].l <= j < index.S().pg[p].r
      ensures data.Valid() && index.Shape() && p < |index.pages| && index.S().pg[p].Framed()
              && Lengths(index.S(), index.g)
      ensures var x := Position(index.S(), index.g, p, j);
              && 0 <= x < |K| && CarriesAt(index.g.G, K, data.Data(), x) && index.g.G[x] == index.S().pg[p].slots[j].e
              && LowGap(index.S(), index.g, p, j + 1) == x + 1 && HighGap(index.S(), index.g, p, j) == x
              && |K[x].key| < KEYLIMIT
      ensures Ascending(K)
    {
      hide PageCache.S, PageCache.Shape, Inv, Sized, DataPages.Valid, DataPages.Data;
      GapAt(index.S(), index.g, index.rootIndex, p, j);
      FiledAt(index.g.G, K, data.Data(), Position(index.S(), index.g, p, j));
    }

    lemma PageEnds(p: nat)
      requires Whole() && In(index.g, p)
      ensures index.Shape() && 0 < p < |index.pages| && Lengths(index.S(), index.g) && index.S().pg[p].Framed()
      ensures LowGap(index.S(), index.g, p, index.S().pg[p].l) == index.g.st[p]
      ensures HighGap(index.S(), index.g, p, index.S().pg[p].r) == index.g.en[p]
    {
      hide PageCache.S, PageCache.Shape, Inv, Sized;
      GapEnds(index.S(), index.g, index.rootIndex, p);
    }

    /** What a key is compared with at slot j of page p. */
    lemma Against(key: seq<byte>, p: nat, j: int) returns (k0: seq<byte>, v: seq<byte>)
      requires Ready(key) && In(index.g, p) && index.S().pg[p].l <= j < index.S().pg[p].r
      ensures data.Valid() && index.Shape() && p < |index.pages| && index.S().pg[p].Framed()
              && Lengths(index.S(), index.g) && |k0| < KEYLIMIT
      ensures var e := index.S().pg[p].slots[j].e;
              if key == [] then e.keyLen < KEYLIMIT
                  else Stands(e, k0) && At(e) in data.Data() && Encodes(data.Data()[At(e)], k0, v)
      ensures key != [] ==>
                var x := Position(index.S(), index.g, p, j);
                && 0 <= x < |K| && K[x].key == k0 && Ascending(K)
                && LowGap(index.S(), index.g, p, j + 1) == x + 1 && HighGap(index.S(), index.g, p, j) == x
    {
      k0, v := [], [];
      if key == [] {
        SlotModest(p, j);
        PageEnds(p);
      } else {
        SlotCarries(p, j);
        var x := Position(index.S(), index.g, p, j);
        hide Valid, Whole, PageCache.S, PageCache.Shape, DataPages.Valid, DataPages.Data, Ascending;
        CarriedPair(index.g.G, K, data.Data(), x);
        k0, v := K[x].key, K[x].val;
      }
    }

    /** The binary search of find_key() in one page. */
    method FindInPage(p: nat, key: seq<byte>) returns (hit: bool, j: int, pos: int)
      requires Ready(key) && In(index.g, p) && index.S().pg[p].l < index.S().pg[p].r
      requires key != [] ==> KeysBelow(K, key, index.g.st[p]) && KeysAbove(K, key, index.g.en[p])
      ensures Ready(key) && index.S() == old(index.S()) && (key == [] ==> !hit)
      ensures index.S().pg[p].Framed() && index.S().pg[p].l <= j <= index.S().pg[p].r && (hit <==> pos == 0)
              && (hit ==> j < index.S().pg[p].r)
      ensures hit ==> var x := Position(index.S(), index.g, p, j); 0 <= x < |K| && K[x].key == key
      ensures !hit && key != [] ==>
              KeysBelow(K, key, LowGap(index.S(), index.g, p, j))
              && KeysAbove(K, key, HighGap(index.S(), index.g, p, j))
    {
      hide Whole, Valid, Modest, PageCache.S, PageCache.Shape, DataPages.Valid, DataPages.Data, Cmp, Ascending,
          KeysBelow, KeysAbove, LowGap, HighGap, CarriesAt, Stands, Encodes, Abbreviate;
      PageEnds(p);
      var hdr, size := index.LPos(p), index.RPos(p) - index.LPos(p);
      pos := 1;
      while size > 0
        invariant Ready(key) && index.Shape() && index.S() == old(index.S())
        invariant 0 <= size && index.S().pg[p].l <= hdr && hdr + size <= index.S().pg[p].r && pos != 0
        invariant key != [] ==>
                  KeysBelow(K, key, LowGap(index.S(), index.g, p, hdr))
                  && KeysAbove(K, key, HighGap(index.S(), index.g, p, hdr + size))
        decreases size
      {
        var half := size / 2;
        ghost var x := Position(index.S(), index.g, p, hdr + half);
        ghost var k0, v := Against(key, p, hdr + half);
        assert allocated(index.PageObjs());
        pos := Compare(index.At(p, hdr + half).e, key, k0, v);
        CmpZero(key, k0);
        if pos > 0 {
          SmallerBefore(K, key, x);
          size := size - (half + 1);
          hdr := hdr + half + 1;
        } else if pos < 0 {
          if key != [] { GreaterBehind(K, key, x); }
          size := half;
        } else {
          return true, hdr + half, 0;
        }
      }
      return false, hdr, pos;
    }

    /** find_key(): the slot that holds the key (pos 0), or the leaf slot in front of which it belongs;
        nothing if the tree is empty. */
    method FindKey(key: seq<byte>) returns (found: bool, p: nat, j: int, pos: int)
      requires Ready(key)
      ensures Ready(key) && index.S() == old(index.S()) && (found <==> |index.g.G| > 0)
              && (key == [] ==> !found || pos != 0)
      ensures found ==>
              In(index.g, p) && 0 < p < |index.pages| && index.S().pg[p].Framed()
              && index.S().pg[p].l <= j <= index.S().pg[p].r
      ensures found && pos == 0 ==> Holds(p, j, key)
      ensures found && pos != 0 ==> index.g.h[p] == 0
      ensures found && pos != 0 ==>
                var x := index.g.st[p] + j - index.S().pg[p].l;
                0 <= x <= |index.g.G| && (key != [] ==> x <= |K| && KeysBelow(K, key, x) && KeysAbove(K, key, x))
      ensures key != [] && (!found || pos != 0) ==> key !in Map()
    {
      hide Whole, Valid, Modest, PageCache.S, PageCache.Shape, Cmp, LowGap, HighGap, MapOf;
      RootFacts();
      if key != [] { SameLengths(); }
      p, j, pos := index.rootIndex, 0, 1;
      if index.RPos(p) - index.LPos(p) == 0 {
        if key != [] { NotStored(K, key, 0); }
        return false, p, 0, 1;
      }
      found := true;
      assert key != [] ==> KeysBelow(K, key, 0) && KeysAbove(K, key, |K|);
      hide KeysBelow, KeysAbove;
      while true
        invariant Ready(key) && index.Shape() && index.S() == old(index.S()) && |index.g.G| > 0 && found
                  && (key != [] ==> |index.g.G| == |K|)
        invariant In(index.g, p) && 0 < p < |index.pages| && index.S().pg[p].Framed()
                  && index.S().pg[p].l < index.S().pg[p].r
        invariant Lengths(index.S(), index.g)
        invariant key != [] ==> KeysBelow(K, key, index.g.st[p]) && KeysAbove(K, key, index.g.en[p])
        decreases index.g.h[p]
      {
        var hit;
        assert allocated(index.PageObjs());
        hit, j, pos := FindInPage(p, key);
        if hit {
          return;
        }
        GapFacts(p, j);
        if index.Child(p, j) == 0 {
          if key != [] { NotStored(K, key, index.g.st[p] + j - index.S().pg[p].l); }
          return;
        }
        p := index.Child(p, j);
      }
    }

    lemma RootFacts()
      requires Whole()
      ensures In(index.g, index.rootIndex) && index.Shape() && 0 < index.rootIndex < |index.pages|
              && Lengths(index.S(), index.g)
      ensures index.S().pg[index.rootIndex].Framed()
      ensures index.S().pg[index.rootIndex].Size() == 0 <==> |index.g.G| == 0
      ensures index.g.st[index.rootIndex] == 0 && index.g.en[index.rootIndex] == |index.g.G|
    {
      hide PageCache.S, PageCache.Shape, Sized;
      RootSize(index.S(), index.g, index.rootIndex);
    }

    lemma GapFacts(p: nat, j: int)
      requires Whole() && In(index.g, p) && index.S().pg[p].l <= j <= index.S().pg[p].r
      ensures index.Shape() && Lengths(index.S(), index.g) && 0 < p < |index.pages| && index.S().pg[p].Framed()
      ensures index.S().pg[p].slots[j].child == 0 <==> index.g.h[p] == 0
      ensures index.g.h[p] == 0 ==>
                var x := index.g.st[p] + j - index.S().pg[p].l;
                0 <= x <= |index.g.G| && LowGap(index.S(), index.g, p, j) == HighGap(index.S(), index.g, p, j) == x
      ensures index.g.h[p] > 0 ==>
                var c := index.S().pg[p].slots[j].child;
                && In(index.g, c) && 0 < c < |index.pages| && index.g.h[c] < index.g.h[p] && index.S().pg[c].Framed()
                && index.S().pg[c].l < index.S().pg[c].r
                && LowGap(index.S(), index.g, p, j) == index.g.st[c]
                && HighGap(index.S(), index.g, p, j) == index.g.en[c]
    {
      hide PageCache.S, PageCache.Shape, Inv, Sized;
      GapInside(index.S(), index.g, index.rootIndex, p, j);
      if index.g.h[p] > 0 {
        NonRootFull(index.S(), index.g, index.rootIndex, index.S().pg[p].slots[j].child);
      } else {
        LeafFacts(index.S(), index.g, index.rootIndex, p);
      }
    }

    lemma SameLengths()
      requires Valid()
      ensures Whole() && index.Tree() && Sized(index.S(), index.g, index.rootIndex) && |index.g.G| == |K|
              && Ascending(K)
    {
      hide PageCache.S, PageCache.Shape, Inv, Sized, DataPages.Valid, DataPages.Data, Ascending;
    }

    // ---------- the two halves share the page numbers ----------

    /** The pages of the tree are the used pages that are not data pages. */
    lemma TreePages()
      requires Whole()
      ensures index.Shape() && Lengths(index.S(), index.g) && Inv(index.S(), index.g, index.rootIndex)
      ensures forall i: nat {:trigger In(index.g, i)} :: In(index.g, i) <==> i in space.Used() - data.pages
    {
      hide PageCache.S, PageCache.Shape, Inv, Sized, DataPages.Valid;
      forall i: nat
        ensures In(index.g, i) <==> i in space.Used() - data.pages
      {
        assert i in index.Foreign() <==> i in space.Used() && !In(index.g, i);
      }
    }

    /** The tree is whole again after the data pages took or gave back pages. */
    lemma IndexAgain()
      requires index.space == space && data.space == space && data.Valid()
      requires index.Shape() && Lengths(index.S(), index.g) && Inv(index.S(), index.g, index.rootIndex)
      requires forall i: nat {:trigger In(index.g, i)} :: In(index.g, i) <==> i in space.Used() - data.pages
      ensures index.Tree() && index.Foreign() == data.pages
    {
      hide PageCache.S, PageCache.Shape, Inv, DataPages.Inside;
      data.ValidIs();
      forall i: nat
        ensures i in index.Foreign() <==> i in data.pages
      {
        assert In(index.g, i) <==> i in space.Used() - data.pages;
      }
    }

    /** The data pages are whole again after the tree took or gave back pages. */
    lemma DataAgain()
      requires data.space == index.space == space && index.Tree() && data.Inside() && index.Foreign() == data.pages
      ensures data.Valid()
    {
      hide PageCache.S, PageCache.Shape, Inv, DataPages.Inside;
      data.ValidIs();
    }

    ghost predicate OnlyOne(a: bool, b: bool, c: bool) {
      (a && !b && !c) || (!a && b && !c) || (!a && !b && c)
    }

    /** Every page of the file is either reached from the root, or a data page, or on the free-page list. */
    lemma PagesPartitioned()
      requires Valid()
      ensures In(index.g, index.rootIndex) && index.Shape()
      ensures forall i: nat | 1 <= i <= space.maxPageIdx ::
                OnlyOne(i in Below(index.S(), index.rootIndex, index.g.h[index.rootIndex]), i in data.pages,
                    i in space.chain)
    {
      hide PageCache.S, PageCache.Shape, Inv, Sized, DataPages.Valid, Below;
      RootFacts();
      TreePages();
      TreeMeaning(index.S(), index.g, index.rootIndex);
      forall i: nat | 1 <= i <= space.maxPageIdx
        ensures OnlyOne(i in Below(index.S(), index.rootIndex, index.g.h[index.rootIndex]), i in data.pages,
                i in space.chain)
      {
        assert i in Below(index.S(), index.rootIndex, index.g.h[index.rootIndex]) <==> In(index.g, i);
        assert i in space.Used() <==> i !in space.chain;
        assert i in index.Foreign() <==> i in space.Used() && !In(index.g, i);
      }
    }

    // ---------- operations ----------

    /** Slot j of page p holds this key. */
    ghost predicate Holds(p: nat, j: int, key: seq<byte>)
      requires index.Shape()
      reads this, index, index.PageObjs()
    {
      && In(index.g, p) && 0 < p < |index.pages| && index.S().pg[p].Framed()
      && index.S().pg[p].l <= j < index.S().pg[p].r
      && Lengths(index.S(), index.g) && var x := Position(index.S(), index.g, p, j); 0 <= x < |K| && K[x].key == key
    }

    lemma MapAtKey(x: int)
      requires Valid() && 0 <= x < |K|
      ensures K[x].key in Map() && Map()[K[x].key] == K[x].val
    {
      hide PageCache.S, PageCache.Shape, Inv, Sized, DataPages.Valid, DataPages.Data, Filed, MapOf;
      MapAt(K, x);
    }

    /** A table whose pairs are all found can be searched for any key, and has no empty one. */
    lemma ValidReady(key: seq<byte>)
      requires Valid() && |key| < KEYLIMIT
      ensures Ready(key) && (key == [] ==> key !in Map())
    {
      hide PageCache.S, PageCache.Shape, Inv, Sized, DataPages.Valid, DataPages.Data, Ascending, Filed;
      FiledModest(index.g.G, K, data.Data());
      NoEmptyKey(index.g.G, K, data.Data());
    }

    /** extract_val() of the record behind slot j of page p. */
    method ValueAt(p: nat, j: int, key: seq<byte>) returns (v: seq<byte>)
      requires Valid() && Holds(p, j, key)
      ensures key in Map() && v == Map()[key]
    {
      hide Valid, PageCache.S, PageCache.Shape, MapOf;
      SlotCarries(p, j);
      ghost var x := Position(index.S(), index.g, p, j);
      MapAtKey(x);
      v := data.ExtractVal(At(index.At(p, j).e), key, K[x].val);
    }

    /** find(): the value stored under a key; nothing for the empty key, even if it was stored. */
    method Find(key: seq<byte>) returns (r: Option<seq<byte>>)
      requires Ready(key)
      ensures Ready(key) && r == if key != [] && key in Map() then Some(Map()[key]) else None
    {
      hide Whole, Valid, Modest, PageCache.S, PageCache.Shape, MapOf;
      assert allocated(index.PageObjs());
      var found, p, j, pos := FindKey(key);
      if !found || pos != 0 {
        return None;
      }
      var v := ValueAt(p, j, key);
      return Some(v);
    }

    /** A new record, while the index tree keeps its pages. */
    method NewRecord(key: seq<byte>, val: seq<byte>) returns (e: Entry)
      requires Whole() && 8 + |key| + |val| < LIMIT
      modifies data, space
      ensures index.Tree() && index.S() == old(index.S()) && index.Foreign() == data.pages && data.Valid()
      ensures At(e) !in old(data.Data()) && data.Data() == old(data.Data())[At(e) := RecordBytes(key, val)]
      ensures if key == [] then e.keyLen == 0 else Carries(e, Pair(key, val), data.Data())
    {
      hide PageCache.S, PageCache.Shape, Inv, Sized, DataPages.Valid, DataPages.Inside, RecordBytes, Filed,
          Ascending, Counted;
      TreePages();
      ghost var was := data.Data();
      var h := data.CreateNode(key, val);
      e := Abbreviate(key, h);
      AbbreviationStands(key, h);
      IndexAgain();
    }

    /** What storing under the empty key leaves: one more record and one more entry, which no search finds. */
    static ghost predicate Lost(G: seq<Entry>, was: map<Ref, seq<byte>>, val: seq<byte>, H: seq<Entry>,
        now: map<Ref, seq<byte>>)
      requires 8 + |val| < LIMIT
    {
      exists x, e ::
          0 <= x <= |G| && H == Inserted(G, x, e) && e.keyLen == 0 && At(e) !in was
          && now == was[At(e) := RecordBytes([], val)]
    }

    static lemma LostGrows(G: seq<Entry>, was: map<Ref, seq<byte>>, val: seq<byte>, H: seq<Entry>,
        now: map<Ref, seq<byte>>)
      requires 8 + |val| < LIMIT && Lost(G, was, val, H, now)
      ensures |H| == |G| + 1
    {
    }

    /** A new record, and its entry in front of slot j of leaf p. */
    method EntryAt(p: nat, j: int, key: seq<byte>, val: seq<byte>) returns (ghost e: Entry)
      requires Whole() && 8 + |key| + |val| < LIMIT
      requires In(index.g, p) && index.g.h[p] == 0 && 0 < p < |index.pages|
               && index.S().pg[p].l <= j <= index.S().pg[p].r
      modifies `inserted, index, index.PageObjs(), data, space
      ensures Whole() && fresh(index.PageObjs() - old(index.PageObjs())) && inserted == (old(inserted) + 1) % COUNTERS
      ensures var x := old(index.g.st[p] + j - index.S().pg[p].l);
              0 <= x <= |old(index.g.G)| && index.g.G == Inserted(old(index.g.G), x, e)
      ensures At(e) !in old(data.Data()) && data.Data() == old(data.Data())[At(e) := RecordBytes(key, val)]
      ensures if key == [] then e.keyLen == 0 else Carries(e, Pair(key, val), data.Data())
    {
      hide PageCache.S, PageCache.Shape, Inv, Sized, DataPages.Valid, DataPages.Inside, RecordBytes, Carries,
          Inserted, Abbreviate;
      var f := NewRecord(key, val);
      data.ValidIs();
      index.InsertLeaf(p, j, f);
      DataAgain();
      inserted := (inserted + 1) % COUNTERS;
      e := f;
    }

    /** A new record, and its entry in the empty tree. */
    method EntryFirst(key: seq<byte>, val: seq<byte>) returns (ghost e: Entry)
      requires Whole() && 8 + |key| + |val| < LIMIT && |index.g.G| == 0
      modifies `inserted, index, index.PageObjs(), data, space
      ensures Whole() && fresh(index.PageObjs() - old(index.PageObjs())) && inserted == (old(inserted) + 1) % COUNTERS
      ensures index.g.G == Inserted(old(index.g.G), 0, e)
      ensures At(e) !in old(data.Data()) && data.Data() == old(data.Data())[At(e) := RecordBytes(key, val)]
      ensures if key == [] then e.keyLen == 0 else Carries(e, Pair(key, val), data.Data())
    {
      hide PageCache.S, PageCache.Shape, Inv, Sized, DataPages.Valid, DataPages.Inside, RecordBytes, Carries,
          Inserted, Abbreviate;
      RootFacts();
      ghost var G := index.g.G;
      var f := NewRecord(key, val);
      data.ValidIs();
      index.InsertFirst(f);
      DataAgain();
      OneEntry(G, f);
      inserted := (inserted + 1) % COUNTERS;
      e := f;
    }

    /** What held before an entry was added at position x. */
    ghost predicate Room(x: int, key: seq<byte>, G: seq<Entry>, was: map<Ref, seq<byte>>, count: nat)
      reads this`K, this`removed
    {
      && 0 <= x <= |G|
      && if key == [] then Modest(G)
         else Filed(G, K, was) && Ascending(K) && Short(K) && |G| == |K| && KeysBelow(K, key, x) && KeysAbove(K, key, x)
              && count < COUNTERS && removed < COUNTERS && (count - removed - |K|) % COUNTERS == 0
    }

    lemma HasPlace(x: int, key: seq<byte>)
      requires Ready(key) && 0 <= x <= |index.g.G| && (key != [] ==> KeysBelow(K, key, x) && KeysAbove(K, key, x))
      ensures Whole() && Room(x, key, index.g.G, data.Data(), inserted) && |key| < KEYLIMIT
    {
      hide Whole, DataPages.Data, KeysBelow, KeysAbove, Ascending, Short, Modest;
    }

    /** The pair of a new entry joins the others, unless its key is empty. */
    ghost method Join(x: int, e: Entry, p: Pair, G: seq<Entry>, was: map<Ref, seq<byte>>, count: nat)
      requires Whole() && Room(x, p.key, G, was, count) && |p.key| < KEYLIMIT && 8 + |p.key| + |p.val| < LIMIT
      requires index.g.G == Inserted(G, x, e) && inserted == (count + 1) % COUNTERS
      requires At(e) !in was && data.Data() == was[At(e) := RecordBytes(p.key, p.val)]
      requires if p.key == [] then e.keyLen == 0 else Carries(e, p, data.Data())
      modifies `K
      ensures Ready(p.key)
      ensures p.key != [] ==> Map() == old(Map())[p.key := p.val] && p.key !in old(Map())
      ensures p.key == [] ==> Lost(G, was, p.val, index.g.G, data.Data())
    {
      hide PageCache.S, PageCache.Shape, Inv, Sized, DataPages.Valid, RecordBytes, Carries, MapOf, KeysBelow,
          KeysAbove, Filed, Ascending, Short, Inserted, Modest;
      if p.key == [] {
        ModestInsert(G, x, e);
      } else {
        FiledInsert(G, K, was, x, e, p, RecordBytes(p.key, p.val));
        MapInsert(K, x, p);
        AscendingInsert(K, x, p);
        ShortInsert(K, x, p);
        K := Inserted(K, x, p);
      }
    }

    /** A new pair in front of slot j of leaf p. */
    method AddAt(p: nat, j: int, key: seq<byte>, val: seq<byte>, ghost x: int)
      requires Ready(key) && 8 + |key| + |val| < LIMIT
      requires In(index.g, p) && index.g.h[p] == 0 && 0 < p < |index.pages|
               && index.S().pg[p].l <= j <= index.S().pg[p].r
      requires x == index.g.st[p] + j - index.S().pg[p].l && 0 <= x <= |index.g.G|
               && (key != [] ==> KeysBelow(K, key, x) && KeysAbove(K, key, x))
      modifies this, index, index.PageObjs(), data, space
      ensures Ready(key) && fresh(index.PageObjs() - old(index.PageObjs()))
      ensures key != [] ==> Map() == old(Map())[key := val] && key !in old(Map())
      ensures key == [] ==> Lost(old(index.g.G), old(data.Data()), val, index.g.G, data.Data())
    {
      hide Whole, Valid, Ready, Room, PageCache.S, PageCache.Shape, PageCache.Tree, Sized, DataPages.Data,
          RecordBytes, Carries, MapOf, KeysBelow, KeysAbove, Inserted, Lost;
      ghost var G, was, count := index.g.G, data.Data(), inserted;
      HasPlace(x, key);
      ghost var e := EntryAt(p, j, key, val);
      Join(x, e, Pair(key, val), G, was, count);
    }

    /** The first pair of an empty table. */
    method AddFirst(key: seq<byte>, val: seq<byte>)
      requires Ready(key) && 8 + |key| + |val| < LIMIT && |index.g.G| == 0 && (key != [] ==> |K| == 0)
      modifies this, index, index.PageObjs(), data, space
      ensures Ready(key) && fresh(index.PageObjs() - old(index.PageObjs()))
      ensures key != [] ==> Map() == old(Map())[key := val] && key !in old(Map())
      ensures key == [] ==> Lost(old(index.g.G), old(data.Data()), val, index.g.G, data.Data())
    {
      hide Whole, Valid, Ready, Room, PageCache.S, PageCache.Shape, PageCache.Tree, Sized, DataPages.Data,
          RecordBytes, Carries, MapOf, Inserted, Lost;
      ghost var G, was, count := index.g.G, data.Data(), inserted;
      HasPlace(0, key);
      ghost var e := EntryFirst(key, val);
      Join(0, e, Pair(key, val), G, was, count);
    }

    /** put_new_node(): a key that is not there is stored; one that is there is only found.  The empty key is always
        stored. */
    method PutNewNode(key: seq<byte>, val: seq<byte>) returns (found: bool, p: nat, j: int)
      requires Ready(key) && 8 + |key| + |val| < LIMIT
      modifies this, index, index.PageObjs(), data, space
      ensures Ready(key) && fresh(index.PageObjs() - old(index.PageObjs()))
      ensures key != [] ==>
              (found <==> key in old(Map())) && Map() == if found then old(Map()) else old(Map())[key := val]
      ensures key == [] ==> !found && Lost(old(index.g.G), old(data.Data()), val, index.g.G, data.Data())
      ensures found ==> Holds(p, j, key)
      ensures found ==> inserted == old(inserted) && removed == old(removed)
    {
      hide Whole, Valid, Modest, PageCache.S, PageCache.Shape, MapOf, KeysBelow, KeysAbove, Lost;
      assert allocated(index.PageObjs());
      var any, pos;
      any, p, j, pos := FindKey(key);
      found := any && pos == 0;
      if key != [] { SameLengths(); }
      if found {
        RootFacts();
        MapAtKey(Position(index.S(), index.g, p, j));
      } else if any {
        RootFacts();
        AddAt(p, j, key, val, index.g.st[p] + j - index.S().pg[p].l);
      } else {
        AddFirst(key, val);
      }
    }

    /** record_count(): the number of pairs, in the width of the counters. */
    method RecordCount() returns (n: nat)
      requires Valid()
      ensures n == |Map()| % COUNTERS
    {
      hide PageCache.S, PageCache.Shape, Inv, Sized, DataPages.Valid, DataPages.Data, Filed, MapOf;
      MapSize(K);
      n := (inserted - removed) % COUNTERS;
    }

    /** The record of pair x gets another value, while the index tree keeps its pages. */
    method NewValue(e: Entry, key: seq<byte>, val: seq<byte>, ghost x: int) returns (f: Entry, moved: bool)
      requires Valid() && 0 <= x < |K| && K[x].key == key && 8 + |key| + |val| < LIMIT
               && CarriesAt(index.g.G, K, data.Data(), x) && index.g.G[x] == e
      modifies data, space
      ensures index.Tree() && index.S() == old(index.S()) && index.Foreign() == data.pages && data.Valid()
      ensures (At(f) == At(e) || At(f) !in old(data.Data())) && (!moved ==> f == e)
      ensures data.Data() == (old(data.Data()) - {At(e)})[At(f) := RecordBytes(key, val)]
      ensures Carries(f, Pair(key, val), data.Data())
    {
      hide PageCache.S, PageCache.Shape, Inv, Sized, DataPages.Valid, DataPages.Inside, RecordBytes, Filed,
          Ascending, Counted;
      TreePages();
      var at;
      at, moved := data.PutReplace(At(e), key, val, K[x].val);
      f := if moved then Abbreviate(key, at) else e;
      AbbreviationStands(key, at);
      IndexAgain();
    }

    /** put_replace() of the record behind slot j of page p, and the entry if the record has moved. */
    method RenewAt(p: nat, j: int, key: seq<byte>, val: seq<byte>, ghost x: int) returns (ghost f: Entry)
      requires Valid() && 8 + |key| + |val| < LIMIT && Holds(p, j, key) && x == Position(index.S(), index.g, p, j)
      modifies index, index.PageObjs(), data, space
      ensures Whole() && fresh(index.PageObjs() - old(index.PageObjs())) && 0 <= x < |old(index.g.G)|
              && index.g.G == old(index.g.G)[x := f]
      ensures At(f) == At(old(index.g.G)[x]) || At(f) !in old(data.Data())
      ensures data.Data() == (old(data.Data()) - {At(old(index.g.G)[x])})[At(f) := RecordBytes(key, val)]
      ensures Carries(f, Pair(key, val), data.Data())
    {
      hide PageCache.S, PageCache.Shape, Inv, Sized, DataPages.Valid, DataPages.Inside, RecordBytes, MapOf, Filed,
          Ascending, Encodes;
      ghost var G := index.g.G;
      SlotCarries(p, j);
      var e := index.At(p, j).e;
      var h, moved := NewValue(e, key, val, x);
      data.ValidIs();
      if moved {
        index.Replace(p, j, h);
      }
      assert G[x := G[x]] == G;
      DataAgain();
      f := h;
    }

    lemma PlaceOf(p: nat, j: int, key: seq<byte>) returns (x: int)
      requires Valid() && Holds(p, j, key)
      ensures index.Shape() && p < |index.S().pg| && Lengths(index.S(), index.g) && 0 <= j < |index.S().pg[p].slots|
      ensures x == Position(index.S(), index.g, p, j) && 0 <= x < |K| == |index.g.G| && K[x].key == key
    {
      hide PageCache.S, PageCache.Shape;
      SameLengths();
      x := Position(index.S(), index.g, p, j);
    }

    /** put_replace(): the pair behind slot j of page p has another value. */
    method ReplaceAt(p: nat, j: int, key: seq<byte>, val: seq<byte>)
      requires Valid() && 8 + |key| + |val| < LIMIT && Holds(p, j, key)
      modifies this, index, index.PageObjs(), data, space
      ensures Valid() && key in old(Map()) && Map() == old(Map())[key := val]
      ensures fresh(index.PageObjs() - old(index.PageObjs())) && inserted == old(inserted) && removed == old(removed)
    {
      hide Whole, PageCache.S, PageCache.Shape, DataPages.Data, RecordBytes, Carries, MapOf, Filed, Ascending;
      ghost var x := PlaceOf(p, j, key);
      ghost var G, was := index.g.G, data.Data();
      MapAtKey(x);
      ghost var f := RenewAt(p, j, key, val, x);
      FiledReplace(G, K, was, x, f, Pair(key, val), RecordBytes(key, val));
      MapReplace(K, x, val);
      K := K[x := Pair(key, val)];
    }

    /** put(): stores the pair; a key that is there keeps its value unless `replace` is set.  Under the empty key
        every call stores one more pair, which find() does not find. */
    method Put(key: seq<byte>, val: seq<byte>, replace: bool) returns (ok: bool)
      requires Ready(key) && 8 + |key| + |val| < LIMIT
      modifies this, index, index.PageObjs(), data, space
      ensures Ready(key) && fresh(index.PageObjs() - old(index.PageObjs()))
      ensures key != [] ==>
              (ok <==> replace || key !in old(Map())) && Map() == if ok then old(Map())[key := val] else old(Map())
      ensures key == [] ==> ok && Lost(old(index.g.G), old(data.Data()), val, index.g.G, data.Data())
    {
      hide Whole, Valid, Modest, PageCache.S, PageCache.Shape, MapOf, Holds, Lost;
      var found, p, j := PutNewNode(key, val);
      if found {
        if replace {
          ReplaceAt(p, j, key, val);
          ValidReady(key);
        } else {
          return false;
        }
      }
      return true;
    }

    /** The put() that gives back what was stored before. */
    method Exchange(key: seq<byte>, val: seq<byte>) returns (origin: Option<seq<byte>>)
      requires Ready(key) && 8 + |key| + |val| < LIMIT
      modifies this, index, index.PageObjs(), data, space
      ensures Ready(key) && fresh(index.PageObjs() - old(index.PageObjs()))
      ensures key != [] ==>
              Map() == old(Map())[key := val] && origin == if key in old(Map()) then Some(old(Map())[key]) else None
      ensures key == [] ==> origin == None && Lost(old(index.g.G), old(data.Data()), val, index.g.G, data.Data())
    {
      hide Whole, Valid, Modest, PageCache.S, PageCache.Shape, MapOf, Holds, Lost;
      var found, p, j := PutNewNode(key, val);
      if found {
        assert allocated(index.PageObjs());
        var was := ValueAt(p, j, key);
        ReplaceAt(p, j, key, val);
        ValidReady(key);
        return Some(was);
      }
      return None;
    }

    /** The record of pair x is freed, while the index tree keeps its pages. */
    method DropRecord(e: Entry, ghost x: int)
      requires Valid() && 0 <= x < |K| && CarriesAt(index.g.G, K, data.Data(), x) && index.g.G[x] == e
      modifies data, space
      ensures index.Tree() && index.S() == old(index.S()) && index.Foreign() == data.pages && data.Valid()
      ensures data.Data() == old(data.Data()) - {At(e)}
    {
      hide PageCache.S, PageCache.Shape, Inv, Sized, DataPages.Inside, Filed, Ascending, Counted;
      TreePages();
      data.FreeData(At(e));
      IndexAgain();
    }

    /** The pair behind slot j of page p goes, with its record. */
    method RemoveAt(p: nat, j: int, key: seq<byte>)
      requires Valid() && Holds(p, j, key)
      modifies this, index, index.PageObjs(), data, space
      ensures Valid() && key in old(Map()) && Map() == old(Map()) - {key}
      ensures fresh(index.PageObjs() - old(index.PageObjs()))
    {
      hide PageCache.S, PageCache.Shape, Inv, Sized, DataPages.Valid, DataPages.Inside, DataPages.Data, MapOf, Filed,
          Ascending, Encodes, Removed;
      ghost var x, G, old_data := Position(index.S(), index.g, p, j), index.g.G, data.Data();
      SlotCarries(p, j);
      MapAtKey(x);
      DropRecord(index.At(p, j).e, x);
      data.ValidIs();
      index.Remove(p, j);
      DataAgain();
      FiledDrop(G, K, old_data, x);
      MapDrop(K, x);
      ShortDrop(K, x);
      K := Removed(K, x);
      removed := (removed + 1) % COUNTERS;
    }

    /** del(): removes a key that is there. */
    method Del(key: seq<byte>) returns (ok: bool)
      requires Valid() && |key| < KEYLIMIT
      modifies this, index, index.PageObjs(), data, space
      ensures Valid() && (ok <==> key in old(Map())) && Map() == old(Map()) - {key}
      ensures fresh(index.PageObjs() - old(index.PageObjs()))
    {
      hide Whole, Valid, Modest, PageCache.S, PageCache.Shape, MapOf, Holds;
      ValidReady(key);
      assert allocated(index.PageObjs());
      var found, p, j, pos := FindKey(key);
      if found && pos == 0 {
        RemoveAt(p, j, key);
        return true;
      }
      return false;
    }

    /** The del() that gives back what was stored. */
    method Withdraw(key: seq<byte>) returns (origin: Option<seq<byte>>)
      requires Valid() && |key| < KEYLIMIT
      modifies this, index, index.PageObjs(), data, space
      ensures Valid() && Map() == old(Map()) - {key}
      ensures origin == if key in old(Map()) then Some(old(Map())[key]) else None
      ensures fresh(index.PageObjs() - old(index.PageObjs()))
    {
      hide Whole, Valid, Modest, PageCache.S, PageCache.Shape, MapOf, Holds;
      ValidReady(key);
      assert allocated(index.PageObjs());
      var found, p, j, pos := FindKey(key);
      if found && pos == 0 {
        assert allocated(index.PageObjs());
        var was := ValueAt(p, j, key);
        RemoveAt(p, j, key);
        return Some(was);
      }
      return None;
    }

    // ---------- walking ----------

    /** extract_data() of the record behind slot j of page p, taken apart. */
    method PairAt(p: nat, j: int) returns (q: Pair)
      requires Valid() && In(index.g, p) && index.S().pg[p].l <= j < index.S().pg[p].r
      ensures Valid() && index.S() == old(index.S()) && Lengths(index.S(), index.g) && p < |index.S().pg|
              && 0 <= j < |index.S().pg[p].slots|
      ensures var x := Position(index.S(), index.g, p, j); 0 <= x < |K| && q == K[x]
    {
      hide Valid, PageCache.S, PageCache.Shape, RecordBytes, DataPages.Valid;
      SlotCarries(p, j);
      ghost var x := Position(index.S(), index.g, p, j);
      assert allocated(index.PageObjs());
      EncodesReads(data.Data()[At(index.g.G[x])], K[x].key, K[x].val);
      var d := data.ExtractData(At(index.At(p, j).e), K[x].key, K[x].val);
      var n := FromLe32(d[4..]);
      q := Pair(d[8..8 + n], d[8 + n..]);
    }

    /** walk(): from left_most() on, next() by next(), every pair once and in key order. */
    method Walk() returns (out: seq<Pair>)
      requires Valid()
      ensures Ascending(out) && MapOf(out) == Map()
    {
      hide Valid, PageCache.S, PageCache.Shape, MapOf, PageCache.Tree, Sized, Ascending;
      SameLengths();
      RootFacts();
      assert allocated(index.PageObjs());
      var found, p, j := index.LeftMost(index.rootIndex);
      out := [];
      while found
        invariant Valid() && index.Shape() && index.S() == old(index.S()) && Lengths(index.S(), index.g)
        invariant |out| <= |K| && out == K[..|out|] && (found <==> |out| < |K|)
        invariant found ==>
                  In(index.g, p) && p < |index.S().pg| && index.S().pg[p].l <= j < index.S().pg[p].r
                  && 0 <= j < |index.S().pg[p].slots|
        invariant found ==> Position(index.S(), index.g, p, j) == |out|
        decreases |K| - |out|
      {
        assert allocated(index.PageObjs());
        var q := PairAt(p, j);
        out := out + [q];
        SameLengths();
        assert allocated(index.PageObjs());
        found, p, j := index.Next(p, j);
      }
      SameLengths();
      assert K[..|K|] == K;
    }
  }
}
