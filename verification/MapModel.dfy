/** The database as a finite map: how index entries, data records and the map belong together. */
module MapModel {
  import opened Sequences
  import opened Keys
  import opened DataModel
  import opened RecordModel
  import opened IndexModel
  import opened IndexSteps

  const INLINE := 5               // sizeof(index_hdr::key)

  datatype Pair = Pair(key: seq<byte>, val: seq<byte>)

  // ---------- index entries ----------

  function At(e: Entry): Ref { Ref(e.page, e.pos) }

  /** The key fields and the place that create_node() writes into an index slot. */
  function Abbreviate(key: seq<byte>, at: Ref): Entry {
    if |key| > INLINE then Entry(key[..INLINE], 0, at.page, at.pos) else Entry(key, |key|, at.page, at.pos)
  }

  /** An entry as compare() takes it: key_len 0 stands for a key longer than the inline bytes. */
  ghost predicate Stands(e: Entry, key: seq<byte>) {
    if e.keyLen == 0 then |key| > INLINE && e.key == key[..INLINE] else e.key == key && e.keyLen == |key|
  }

  /** The abbreviation stands for its key unless the key is empty: then it reads as a long one. */
  lemma AbbreviationStands(key: seq<byte>, at: Ref)
    ensures Stands(Abbreviate(key, at), key) <==> key != []
    ensures At(Abbreviate(key, at)) == at
  {
  }

  /** The inline bytes of a long key begin as the key does. */
  lemma InlineBegins(e: Entry, key: seq<byte>, n: nat)
    requires Stands(e, key) && e.keyLen == 0 && n <= INLINE
    ensures |e.key| == INLINE && n <= |key| && e.key[..n] == key[..n]
  {
    assert key[..INLINE][..n] == key[..n];
  }

  // ---------- entries and records ----------

  /** Entry e and its record carry the pair p. */
  ghost predicate Carries(e: Entry, p: Pair, data: map<Ref, seq<byte>>) {
    Stands(e, p.key) && At(e) in data && Encodes(data[At(e)], p.key, p.val)
  }

  ghost predicate CarriesAt(G: seq<Entry>, K: seq<Pair>, data: map<Ref, seq<byte>>, x: int) {
    0 <= x < |G| && x < |K| && Carries(G[x], K[x], data)
  }

  /** Entry x of the tree and its record carry pair x, and every record has exactly one entry. */
  ghost predicate Filed(G: seq<Entry>, K: seq<Pair>, data: map<Ref, seq<byte>>) {
    && |G| == |K|
    && (forall x {:trigger CarriesAt(G, K, data, x)} | 0 <= x < |G| :: CarriesAt(G, K, data, x))
    && (forall x, y | 0 <= x < y < |G| :: At(G[x]) != At(G[y]))
    && (forall r | r in data :: exists x :: 0 <= x < |G| && At(G[x]) == r)
  }

  lemma FiledAt(G: seq<Entry>, K: seq<Pair>, data: map<Ref, seq<byte>>, x: int)
    requires Filed(G, K, data) && 0 <= x < |G|
    ensures |K| == |G| && CarriesAt(G, K, data, x)
  {
  }

  lemma CarriedPair(G: seq<Entry>, K: seq<Pair>, data: map<Ref, seq<byte>>, x: int)
    requires CarriesAt(G, K, data, x)
    ensures 0 <= x < |G| && x < |K| && Stands(G[x], K[x].key) && At(G[x]) in data
            && Encodes(data[At(G[x])], K[x].key, K[x].val)
  {
  }

  ghost predicate Ascending(K: seq<Pair>) {
    forall x, y | 0 <= x < y < |K| :: Cmp(K[x].key, K[y].key) < 0
  }

  /** All keys are shorter than 2 GiB. */
  ghost predicate Short(K: seq<Pair>) {
    forall x {:trigger K[x]} | 0 <= x < |K| :: |K[x].key| < KEYLIMIT
  }

  /** Key lengths in entries fit an int. */
  ghost predicate Modest(G: seq<Entry>) {
    forall x {:trigger G[x]} | 0 <= x < |G| :: G[x].keyLen < KEYLIMIT
  }

  lemma ModestInsert(G: seq<Entry>, x: int, e: Entry)
    requires Modest(G) && 0 <= x <= |G| && e.keyLen < KEYLIMIT
    ensures Modest(Inserted(G, x, e))
  {
  }

  /** Entries that stand for short keys have short key lengths. */
  lemma FiledModest(G: seq<Entry>, K: seq<Pair>, data: map<Ref, seq<byte>>)
    requires Filed(G, K, data) && Short(K)
    ensures Modest(G)
  {
    forall x | 0 <= x < |G|
      ensures G[x].keyLen < KEYLIMIT
    {
      assert CarriesAt(G, K, data, x);
      assert |K[x].key| < KEYLIMIT;
    }
  }

  lemma ShortInsert(K: seq<Pair>, x: int, p: Pair)
    requires Short(K) && 0 <= x <= |K| && |p.key| < KEYLIMIT
    ensures Short(Inserted(K, x, p))
  {
  }

  lemma ShortDrop(K: seq<Pair>, x: int)
    requires Short(K) && 0 <= x < |K|
    ensures Short(Removed(K, x))
  {
  }

  /** Where an entry of the longer list stood. */
  function Stood(x: int, y: int): int { if y < x then y else y - 1 }

  lemma CarriesInsert(G: seq<Entry>, K: seq<Pair>, data: map<Ref, seq<byte>>, x: int, e: Entry, p: Pair, d: seq<byte>,
      y: int)
    requires Filed(G, K, data) && 0 <= x <= |G| && At(e) !in data && Carries(e, p, data[At(e) := d]) && 0 <= y <= |G|
    ensures CarriesAt(Inserted(G, x, e), Inserted(K, x, p), data[At(e) := d], y)
    ensures y != x ==> Inserted(G, x, e)[y] == G[Stood(x, y)] && At(G[Stood(x, y)]) != At(e)
  {
    if y != x { assert CarriesAt(G, K, data, Stood(x, y)); }
  }

  lemma FiledInsert(G: seq<Entry>, K: seq<Pair>, data: map<Ref, seq<byte>>, x: int, e: Entry, p: Pair, d: seq<byte>)
    requires Filed(G, K, data) && 0 <= x <= |G| && At(e) !in data && Carries(e, p, data[At(e) := d])
    ensures Filed(Inserted(G, x, e), Inserted(K, x, p), data[At(e) := d])
  {
    var H, L, m := Inserted(G, x, e), Inserted(K, x, p), data[At(e) := d];
    forall y | 0 <= y < |H|
      ensures CarriesAt(H, L, m, y) && (y != x ==> H[y] == G[Stood(x, y)] && At(H[y]) != At(e))
    {
      CarriesInsert(G, K, data, x, e, p, d, y);
    }
    assert H[x] == e;
    forall r | r in m
      ensures exists y :: 0 <= y < |H| && At(H[y]) == r
    {
      if r != At(e) {
        var y :| 0 <= y < |G| && At(G[y]) == r;
        assert H[if y < x then y else y + 1] == G[y];
      }
    }
    hide CarriesAt, Carries, Inserted, At;
  }

  lemma OneEntry(G: seq<Entry>, e: Entry)
    requires G == []
    ensures Inserted(G, 0, e) == [e]
  {
  }

  lemma FiledDrop(G: seq<Entry>, K: seq<Pair>, data: map<Ref, seq<byte>>, x: int)
    requires Filed(G, K, data) && 0 <= x < |G|
    ensures Filed(Removed(G, x), Removed(K, x), data - {At(G[x])})
  {
    var H, L, m := Removed(G, x), Removed(K, x), data - {At(G[x])};
    forall y | 0 <= y < |H|
      ensures CarriesAt(H, L, m, y)
    {
      assert CarriesAt(G, K, data, if y < x then y else y + 1);
    }
    forall r | r in m
      ensures exists y :: 0 <= y < |H| && At(H[y]) == r
    {
      var y :| 0 <= y < |G| && At(G[y]) == r;
      assert H[if y < x then y else y - 1] == G[y];
    }
  }

  lemma FiledReplace(G: seq<Entry>, K: seq<Pair>, data: map<Ref, seq<byte>>, x: int, e: Entry, p: Pair, d: seq<byte>)
    requires Filed(G, K, data) && 0 <= x < |G| && (At(e) == At(G[x]) || At(e) !in data)
    requires Carries(e, p, (data - {At(G[x])})[At(e) := d])
    ensures Filed(G[x := e], K[x := p], (data - {At(G[x])})[At(e) := d])
  {
    var H, L, m := G[x := e], K[x := p], (data - {At(G[x])})[At(e) := d];
    forall y | 0 <= y < |H|
      ensures CarriesAt(H, L, m, y) && (y != x ==> At(H[y]) != At(e))
    {
      if y != x { assert CarriesAt(G, K, data, y); }
    }
    forall r | r in m
      ensures exists y :: 0 <= y < |H| && At(H[y]) == r
    {
      if r == At(e) {
        assert H[x] == e;
      } else {
        var y :| 0 <= y < |G| && At(G[y]) == r;
        assert H[y] == G[y];
      }
    }
  }

  // ---------- order ----------

  /** All keys in front of position x are smaller than `key`. */
  ghost predicate KeysBelow(K: seq<Pair>, key: seq<byte>, x: int) {
    forall y | 0 <= y < x && y < |K| :: Cmp(key, K[y].key) > 0
  }

  /** All keys from position x on are greater than `key`. */
  ghost predicate KeysAbove(K: seq<Pair>, key: seq<byte>, x: int) {
    forall y | x <= y < |K| && 0 <= y :: Cmp(key, K[y].key) < 0
  }

  lemma SmallerBefore(K: seq<Pair>, key: seq<byte>, x: int)
    requires Ascending(K) && 0 <= x < |K| && Cmp(key, K[x].key) > 0
    ensures KeysBelow(K, key, x + 1)
  {
    forall y | 0 <= y < x + 1 && y < |K|
      ensures Cmp(key, K[y].key) > 0
    {
      CmpFlip(key, K[x].key);
      CmpFlip(key, K[y].key);
      if y < x { CmpTransitive(K[y].key, K[x].key, key); }
    }
  }

  lemma GreaterBehind(K: seq<Pair>, key: seq<byte>, x: int)
    requires Ascending(K) && 0 <= x < |K| && Cmp(key, K[x].key) < 0
    ensures KeysAbove(K, key, x)
  {
    forall y | x <= y < |K| && 0 <= y
      ensures Cmp(key, K[y].key) < 0
    {
      if x < y { CmpTransitive(key, K[x].key, K[y].key); }
    }
  }

  lemma AscendingInsert(K: seq<Pair>, x: int, p: Pair)
    requires Ascending(K) && 0 <= x <= |K| && KeysBelow(K, p.key, x) && KeysAbove(K, p.key, x)
    ensures Ascending(Inserted(K, x, p))
  {
    var L := Inserted(K, x, p);
    forall y, z | 0 <= y < z < |L|
      ensures Cmp(L[y].key, L[z].key) < 0
    {
      if z == x { CmpFlip(p.key, K[y].key); }
    }
  }

  // ---------- the map ----------

  ghost function MapOf(K: seq<Pair>): map<seq<byte>, seq<byte>> {
    if K == [] then map[] else MapOf(K[..|K| - 1])[K[|K| - 1].key := K[|K| - 1].val]
  }

  ghost predicate KeyAt(K: seq<Pair>, k: seq<byte>, x: int) {
    0 <= x < |K| && K[x].key == k
  }

  lemma {:induction false} MapKeys(K: seq<Pair>, k: seq<byte>)
    ensures k in MapOf(K) <==> exists x :: KeyAt(K, k, x)
  {
    if K != [] {
      var n := |K| - 1;
      MapKeys(K[..n], k);
      if k in MapOf(K) {
        if k == K[n].key {
          assert KeyAt(K, k, n);
        } else {
          var x :| KeyAt(K[..n], k, x);
          assert KeyAt(K, k, x);
        }
      }
      if x :| KeyAt(K, k, x) {
        assert x < n ==> KeyAt(K[..n], k, x);
      }
    }
  }

  lemma {:induction false} MapAt(K: seq<Pair>, x: int)
    requires Ascending(K) && 0 <= x < |K|
    ensures K[x].key in MapOf(K) && MapOf(K)[K[x].key] == K[x].val
  {
    var n := |K| - 1;
    if x < n {
      MapAt(K[..n], x);
      CmpZero(K[x].key, K[n].key);
    }
  }

  lemma {:induction false} MapSize(K: seq<Pair>)
    requires Ascending(K)
    ensures |MapOf(K)| == |K|
  {
    if K != [] {
      var n := |K| - 1;
      MapSize(K[..n]);
      MapKeys(K[..n], K[n].key);
      forall x | 0 <= x < n ensures K[x].key != K[n].key { CmpZero(K[x].key, K[n].key); }
    }
  }

  /** A map that agrees with K on its keys and has no other keys is the content of K. */
  lemma MapIs(K: seq<Pair>, m: map<seq<byte>, seq<byte>>)
    requires Ascending(K)
    requires forall x | 0 <= x < |K| :: K[x].key in m && m[K[x].key] == K[x].val
    requires forall k | k in m :: exists x :: KeyAt(K, k, x)
    ensures MapOf(K) == m
  {
    forall k | k in MapOf(K)
      ensures k in m && MapOf(K)[k] == m[k]
    {
      MapKeys(K, k);
      var x :| KeyAt(K, k, x);
      MapAt(K, x);
    }
    forall k | k in m
      ensures k in MapOf(K)
    {
      var x :| KeyAt(K, k, x);
      MapAt(K, x);
    }
  }

  /** A key between two neighbouring positions is at none. */
  lemma NotStored(K: seq<Pair>, key: seq<byte>, x: int)
    requires KeysBelow(K, key, x) && KeysAbove(K, key, x)
    ensures key !in MapOf(K) && forall y | 0 <= y < |K| :: K[y].key != key
  {
    MapKeys(K, key);
    forall y | 0 <= y < |K| ensures K[y].key != key { CmpZero(key, K[y].key); }
  }

  lemma InsertAt(K: seq<Pair>, x: int, p: Pair, y: int)
    requires 0 <= x <= |K| && 0 <= y < |K| + 1
    ensures Inserted(K, x, p)[y] == if y < x then K[y] else if y == x then p else K[y - 1]
  {
  }

  lemma InsertedPair(K: seq<Pair>, x: int, p: Pair, y: int)
    requires Ascending(K) && 0 <= x <= |K| && p.key !in MapOf(K) && 0 <= y < |K| + 1
    ensures var m := MapOf(K)[p.key := p.val]; var q := Inserted(K, x, p)[y]; q.key in m && m[q.key] == q.val
  {
    hide MapOf, Ascending, Inserted;
    InsertAt(K, x, p, y);
    if y != x { MapAt(K, if y < x then y else y - 1); }
  }

  lemma InsertedKey(K: seq<Pair>, x: int, p: Pair, k: seq<byte>)
    requires 0 <= x <= |K| && (k in MapOf(K) || k == p.key)
    ensures exists y :: KeyAt(Inserted(K, x, p), k, y)
  {
    hide MapOf, Inserted;
    if k == p.key {
      InsertAt(K, x, p, x);
      assert KeyAt(Inserted(K, x, p), k, x);
    } else {
      MapKeys(K, k);
      var y :| KeyAt(K, k, y);
      InsertAt(K, x, p, if y < x then y else y + 1);
      assert KeyAt(Inserted(K, x, p), k, if y < x then y else y + 1);
    }
  }

  lemma MapInsert(K: seq<Pair>, x: int, p: Pair)
    requires Ascending(K) && 0 <= x <= |K| && KeysBelow(K, p.key, x) && KeysAbove(K, p.key, x)
    ensures p.key !in MapOf(K) && MapOf(Inserted(K, x, p)) == MapOf(K)[p.key := p.val]
  {
    AscendingInsert(K, x, p);
    NotStored(K, p.key, x);
    var L, m := Inserted(K, x, p), MapOf(K)[p.key := p.val];
    hide MapOf, KeysBelow, KeysAbove, Cmp, Ascending, Inserted, KeyAt;
    forall y | 0 <= y < |L|
      ensures L[y].key in m && m[L[y].key] == L[y].val
    {
      InsertedPair(K, x, p, y);
    }
    forall k | k in m
      ensures exists y :: KeyAt(L, k, y)
    {
      InsertedKey(K, x, p, k);
    }
    MapIs(L, m);
  }

  lemma DistinctKeys(K: seq<Pair>, x: int, y: int)
    requires Ascending(K) && 0 <= x < |K| && 0 <= y < |K| && x != y
    ensures K[x].key != K[y].key
  {
    CmpZero(K[x].key, K[y].key);
  }

  lemma DropAt(K: seq<Pair>, x: int, y: int)
    requires 0 <= x < |K| && 0 <= y < |K| - 1
    ensures Removed(K, x)[y] == K[if y < x then y else y + 1]
  {
  }

  lemma DroppedPair(K: seq<Pair>, x: int, y: int)
    requires Ascending(K) && 0 <= x < |K| && 0 <= y < |K| - 1
    ensures var m := MapOf(K) - {K[x].key}; var q := Removed(K, x)[y]; q.key in m && m[q.key] == q.val
  {
    hide MapOf, Ascending, Removed;
    DropAt(K, x, y);
    MapAt(K, if y < x then y else y + 1);
    DistinctKeys(K, x, if y < x then y else y + 1);
  }

  lemma KeptKey(K: seq<Pair>, x: int, k: seq<byte>)
    requires 0 <= x < |K| && k in MapOf(K) && k != K[x].key
    ensures exists y :: KeyAt(Removed(K, x), k, y)
  {
    hide MapOf, Removed;
    MapKeys(K, k);
    var y :| KeyAt(K, k, y);
    DropAt(K, x, if y < x then y else y - 1);
    assert KeyAt(Removed(K, x), k, if y < x then y else y - 1);
  }

  lemma DropAscends(K: seq<Pair>, x: int)
    requires Ascending(K) && 0 <= x < |K|
    ensures Ascending(Removed(K, x))
  {
    var L := Removed(K, x);
    forall y, z | 0 <= y < z < |L|
      ensures Cmp(L[y].key, L[z].key) < 0
    {
      DropAt(K, x, y);
      DropAt(K, x, z);
    }
  }

  lemma MapDrop(K: seq<Pair>, x: int)
    requires Ascending(K) && 0 <= x < |K|
    ensures Ascending(Removed(K, x)) && MapOf(Removed(K, x)) == MapOf(K) - {K[x].key}
  {
    hide MapOf, Ascending, Removed, KeyAt;
    var L, m := Removed(K, x), MapOf(K) - {K[x].key};
    DropAscends(K, x);
    forall y | 0 <= y < |L|
      ensures L[y].key in m && m[L[y].key] == L[y].val
    {
      DroppedPair(K, x, y);
    }
    forall k | k in m
      ensures exists y :: KeyAt(L, k, y)
    {
      KeptKey(K, x, k);
    }
    MapIs(L, m);
  }

  lemma MapReplace(K: seq<Pair>, x: int, val: seq<byte>)
    requires Ascending(K) && 0 <= x < |K|
    ensures var L := K[x := Pair(K[x].key, val)]; Ascending(L) && MapOf(L) == MapOf(K)[K[x].key := val]
  {
    hide MapOf;
    var L, m := K[x := Pair(K[x].key, val)], MapOf(K)[K[x].key := val];
    forall y | 0 <= y < |L|
      ensures L[y].key in m && m[L[y].key] == L[y].val
    {
      MapAt(K, y);
      if y != x { DistinctKeys(K, x, y); }
    }
    forall k | k in m
      ensures exists y :: KeyAt(L, k, y)
    {
      if k == K[x].key {
        assert KeyAt(L, k, x);
      } else {
        MapKeys(K, k);
        var y :| KeyAt(K, k, y);
        assert KeyAt(L, k, y);
      }
    }
    MapIs(L, m);
  }

  /** Where all entries stand for their keys, no key is empty. */
  lemma NoEmptyKey(G: seq<Entry>, K: seq<Pair>, data: map<Ref, seq<byte>>)
    requires Filed(G, K, data)
    ensures [] !in MapOf(K)
  {
    MapKeys(K, []);
    forall x
      ensures !KeyAt(K, [], x)
    {
      if 0 <= x < |K| { assert CarriesAt(G, K, data, x); }
    }
  }

  lemma NothingFiled()
    ensures Filed([], [], map[]) && Ascending([]) && Short([]) && MapOf([]) == map[]
  {
  }
}
