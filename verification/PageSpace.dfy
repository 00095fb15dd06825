/** Which page numbers are in use: the free_page_list chain and max_page_idx of the magic page. */
module PageSpace {

  /** Every page 1 .. max is either in use or in the chain. */
  ghost function UsedSet(max: nat, chain: seq<nat>): set<nat> {
    set i: nat | 1 <= i <= max && i !in chain
  }

  /** The chain lists pages 1 .. max, each at most once. */
  ghost predicate FreeChain(max: nat, chain: seq<nat>) {
    && (forall k | 0 <= k < |chain| :: 1 <= chain[k] <= max)
    && (forall k, m | 0 <= k < m < |chain| :: chain[k] != chain[m])
  }

  function HeadOf(chain: seq<nat>): nat { if chain == [] then 0 else chain[0] }

  /** Every page of the chain points to the next one. */
  ghost predicate Links(link: map<nat, nat>, chain: seq<nat>) {
    chain != [] ==> chain[0] in link && link[chain[0]] == HeadOf(chain[1..]) && Links(link, chain[1..])
  }

  lemma {:induction false} LinksFrame(link: map<nat, nat>, chain: seq<nat>, idx: nat, x: nat)
    requires Links(link, chain) && idx !in chain
    ensures Links(link[idx := x], chain)
  {
    if chain != [] { LinksFrame(link, chain[1..], idx, x); }
  }

  lemma PopChain(max: nat, chain: seq<nat>)
    requires FreeChain(max, chain) && chain != []
    ensures 1 <= chain[0] <= max && chain[0] !in UsedSet(max, chain) && FreeChain(max, chain[1..])
    ensures UsedSet(max, chain[1..]) == UsedSet(max, chain) + {chain[0]}
  {
    assert chain == [chain[0]] + chain[1..];
  }

  lemma PushChain(max: nat, chain: seq<nat>, idx: nat)
    requires FreeChain(max, chain) && idx in UsedSet(max, chain)
    ensures FreeChain(max, [idx] + chain) && UsedSet(max, [idx] + chain) == UsedSet(max, chain) - {idx}
  {
  }

  lemma ExtendEmpty(max: nat)
    ensures UsedSet(max + 1, []) == UsedSet(max, []) + {max + 1} && max + 1 !in UsedSet(max, [])
  {
  }

  class Space {
    var freePageList: nat           // head of the chain in the magic page, 0 for none
    var maxPageIdx: nat
    var link: map<nat, nat>         // free_page_list word of every page that was freed
    ghost var chain: seq<nat>       // the free pages in list order

    ghost predicate Valid()
      reads this
    {
      FreeChain(maxPageIdx, chain) && Links(link, chain) && freePageList == HeadOf(chain)
    }

    ghost function Used(): set<nat>
      reads this
    {
      UsedSet(maxPageIdx, chain)
    }

    constructor ()
      ensures Valid() && Used() == {} && maxPageIdx == 0
    {
      freePageList, maxPageIdx, link, chain := 0, 0, map[], [];
    }

    method Alloc() returns (idx: nat)
      requires Valid()
      modifies this
      ensures Valid() && idx > 0 && idx !in old(Used()) && Used() == old(Used()) + {idx}
      ensures idx == if old(freePageList) != 0 then old(freePageList) else old(maxPageIdx) + 1
      ensures maxPageIdx == if old(freePageList) != 0 then old(maxPageIdx) else old(maxPageIdx) + 1
      ensures old(maxPageIdx) == 0 ==> idx == 1
    {
      hide UsedSet;
      if freePageList != 0 {
        PopChain(maxPageIdx, chain);
        idx := freePageList;
        freePageList := link[idx];
        chain := chain[1..];
      } else {
        assert chain == [];
        ExtendEmpty(maxPageIdx);
        maxPageIdx := maxPageIdx + 1;
        idx := maxPageIdx;
      }
    }

    method Free(idx: nat)
      requires Valid() && idx in Used()
      modifies this
      ensures Valid() && Used() == old(Used()) - {idx}
      ensures old(maxPageIdx) == maxPageIdx && freePageList == idx
    {
      PushChain(maxPageIdx, chain, idx);
      LinksFrame(link, chain, idx, freePageList);
      assert ([idx] + chain)[1..] == chain;
      link := link[idx := freePageList];
      freePageList := idx;
      chain := [idx] + chain;
    }
  }
}
