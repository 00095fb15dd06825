/** What the page cache of `znet/common/db.h` means: its hash buckets, its order of use, and what eviction leaves. */
module CacheModel {
  import opened Sequences

  type Index = int
  type Layout = seq<int>

  // ---------- hash buckets ----------

  function Slot(n: nat, p: Index): nat
    requires n > 0
  {
    p % n
  }

  /** 16 doubled some number of times: then p % n is what masking with n - 1 leaves. */
  ghost predicate Doubled(n: nat) {
    n == 16 || (n > 16 && n % 2 == 0 && Doubled(n / 2))
  }

  ghost predicate Once(list: seq<Index>) {
    forall i, j {:trigger list[i], list[j]} | 0 <= i < j < |list| :: list[i] != list[j]
  }

  /** The chain of bucket b holds just the cached pages that belong there. */
  ghost predicate Chain(list: seq<Index>, n: nat, b: nat, cached: set<Index>)
    requires n > 0
  {
    Once(list) && forall p {:trigger p in list} {:trigger p in cached} :: p in list <==> p in cached && Slot(n, p) == b
  }

  ghost predicate Hashed(buckets: seq<seq<Index>>, cached: set<Index>) {
    |buckets| > 0 && forall b {:trigger buckets[b]} | 0 <= b < |buckets| :: Chain(buckets[b], |buckets|, b, cached)
  }

  lemma InBucket(buckets: seq<seq<Index>>, cached: set<Index>, p: Index)
    requires Hashed(buckets, cached)
    ensures p in buckets[Slot(|buckets|, p)] <==> p in cached
  {
    assert Chain(buckets[Slot(|buckets|, p)], |buckets|, Slot(|buckets|, p), cached);
  }

  lemma BucketAdds(buckets: seq<seq<Index>>, cached: set<Index>, p: Index)
    requires Hashed(buckets, cached) && p !in cached
    ensures var b := Slot(|buckets|, p); Hashed(buckets[b := [p] + buckets[b]], cached + {p})
  {
    var b := Slot(|buckets|, p);
    var now := buckets[b := [p] + buckets[b]];
    forall c | 0 <= c < |now|
      ensures Chain(now[c], |now|, c, cached + {p})
    {
      assert Chain(buckets[c], |buckets|, c, cached);
    }
  }

  lemma DroppedOnce(list: seq<Index>, k: nat)
    requires k < |list| && Once(list)
    ensures Once(Removed(list, k)) && forall p {:trigger p in Removed(list, k)} ::
            p in Removed(list, k) <==> p in list && p != list[k]
  {
    var d := Removed(list, k);
    forall p | p in list && p != list[k]
      ensures p in d
    {
      var i :| 0 <= i < |list| && list[i] == p;
      assert d[if i < k then i else i - 1] == p;
    }
    forall i | 0 <= i < |d|
      ensures d[i] in list && d[i] != list[k]
    {
      assert d[i] == list[if i < k then i else i + 1];
    }
    forall i, j | 0 <= i < j < |d|
      ensures d[i] != d[j]
    {
      assert d[i] == list[if i < k then i else i + 1] && d[j] == list[if j < k then j else j + 1];
    }
  }

  lemma BucketDrops(buckets: seq<seq<Index>>, cached: set<Index>, b: nat, k: nat)
    requires Hashed(buckets, cached) && b < |buckets| && k < |buckets[b]|
    ensures Hashed(buckets[b := Removed(buckets[b], k)], cached - {buckets[b][k]})
  {
    var p, now := buckets[b][k], buckets[b := Removed(buckets[b], k)];
    assert Chain(buckets[b], |buckets|, b, cached);
    DroppedOnce(buckets[b], k);
    assert p in buckets[b];
    forall c | 0 <= c < |now|
      ensures Chain(now[c], |now|, c, cached - {p})
    {
      assert Chain(buckets[c], |buckets|, c, cached);
    }
  }

  // ---------- all pages of the buckets ----------

  ghost function Flat(buckets: seq<seq<Index>>, n: nat): seq<Index>
    requires n <= |buckets|
  {
    if n == 0 then [] else Flat(buckets, n - 1) + buckets[n - 1]
  }

  lemma {:induction false} FlatPages(buckets: seq<seq<Index>>, cached: set<Index>, n: nat)
    requires Hashed(buckets, cached) && n <= |buckets|
    ensures Once(Flat(buckets, n)) && forall p {:trigger p in Flat(buckets, n)} ::
            p in Flat(buckets, n) <==> p in cached && Slot(|buckets|, p) < n
  {
    if n > 0 {
      FlatPages(buckets, cached, n - 1);
      assert Chain(buckets[n - 1], |buckets|, n - 1, cached);
      OnceJoined(Flat(buckets, n - 1), buckets[n - 1]);
    }
  }

  lemma OnceJoined(a: seq<Index>, b: seq<Index>)
    requires Once(a) && Once(b) && forall p | p in a :: p !in b
    ensures Once(a + b)
  {
    var c := a + b;
    forall i, j | 0 <= i < j < |c|
      ensures c[i] != c[j]
    {
      if j < |a| {
        assert a[i] != a[j];
      } else if i < |a| {
        assert a[i] in a && b[j - |a|] in b;
      } else {
        assert b[i - |a|] != b[j - |a|];
      }
    }
  }

  // ---------- the order of use ----------

  /** q lists the cached pages from the one used longest ago to the last one used, and the numbers say so. */
  ghost predicate Recency(q: seq<Index>, lru: map<Index, int>, cached: set<Index>, top: int) {
    && (forall p {:trigger p in q} {:trigger p in cached} :: p in q <==> p in cached)
    && (forall i {:trigger q[i]} | 0 <= i < |q| :: q[i] in lru && 0 <= lru[q[i]] < top)
    && forall i, j {:trigger q[i], q[j]} | 0 <= i < j < |q| :: lru[q[i]] < lru[q[j]]
  }

  predicate In(s: seq<Index>, lru: map<Index, int>) {
    forall i {:trigger s[i]} | 0 <= i < |s| :: s[i] in lru
  }

  ghost predicate Ascending(s: seq<Index>, lru: map<Index, int>) {
    In(s, lru) && forall i, j {:trigger s[i], s[j]} | 0 <= i < j < |s| :: lru[s[i]] < lru[s[j]]
  }

  /** std::sort by lruless, the numbers being distinct. */
  function Sorted(s: seq<Index>, lru: map<Index, int>): (r: seq<Index>)
    requires In(s, lru)
    ensures In(r, lru)
  {
    if s == [] then [] else Put(Sorted(s[..|s| - 1], lru), lru, s[|s| - 1])
  }

  function Put(s: seq<Index>, lru: map<Index, int>, p: Index): (r: seq<Index>)
    requires p in lru && In(s, lru)
    ensures In(r, lru)
  {
    if s == [] then [p] else if lru[p] < lru[s[0]] then [p] + s else [s[0]] + Put(s[1..], lru, p)
  }

  lemma {:induction false} PutHolds(s: seq<Index>, lru: map<Index, int>, p: Index, x: Index)
    requires p in lru && In(s, lru)
    ensures x in Put(s, lru, p) <==> x in s || x == p
  {
    if s != [] {
      PutHolds(s[1..], lru, p, x);
      assert s == [s[0]] + s[1..];
    }
  }

  lemma {:induction false} SortedHolds(s: seq<Index>, lru: map<Index, int>, x: Index)
    requires In(s, lru)
    ensures x in Sorted(s, lru) <==> x in s
  {
    if s != [] {
      var n := |s| - 1;
      SortedHolds(s[..n], lru, x);
      PutHolds(Sorted(s[..n], lru), lru, s[n], x);
      assert s == s[..n] + [s[n]];
    }
  }

  lemma {:induction false} PutAscends(s: seq<Index>, lru: map<Index, int>, p: Index)
    requires p in lru && Ascending(s, lru) && forall i {:trigger s[i]} | 0 <= i < |s| :: lru[s[i]] != lru[p]
    ensures Ascending(Put(s, lru, p), lru)
  {
    if s != [] && lru[p] >= lru[s[0]] {
      AscendingTail(s, lru);
      forall i | 0 <= i < |s[1..]| ensures lru[s[1..][i]] != lru[p] { assert s[1..][i] == s[i + 1]; }
      PutAscends(s[1..], lru, p);
      forall y | y in Put(s[1..], lru, p) ensures y in s[1..] || y == p { PutHolds(s[1..], lru, p, y); }
      AllBehind(s[0], Put(s[1..], lru, p), lru, s[1..], p);
      Prepended(s[0], Put(s[1..], lru, p), lru);
    } else if s != [] {
      Prepended(p, s, lru);
    }
  }

  /** The number of p is smaller than those of the list. */
  ghost predicate Before(p: Index, s: seq<Index>, lru: map<Index, int>) {
    p in lru && In(s, lru) && forall i {:trigger s[i]} | 0 <= i < |s| :: lru[p] < lru[s[i]]
  }

  lemma AllBehind(p: Index, s: seq<Index>, lru: map<Index, int>, t: seq<Index>, x: Index)
    requires Before(p, t, lru) && In(s, lru) && x in lru && lru[p] < lru[x] && forall y | y in s :: y in t || y == x
    ensures Before(p, s, lru)
  {
    forall i | 0 <= i < |s|
      ensures lru[p] < lru[s[i]]
    {
      var y := s[i];
      assert y in s;
      if y in t { var j :| 0 <= j < |t| && t[j] == y; }
    }
  }

  lemma StillBehind(p: Index, s: seq<Index>, lru: map<Index, int>, t: seq<Index>)
    requires Before(p, t, lru) && In(s, lru) && forall y | y in s :: y in t
    ensures Before(p, s, lru)
  {
    forall i | 0 <= i < |s|
      ensures lru[p] < lru[s[i]]
    {
      var y := s[i];
      assert y in s;
      var j :| 0 <= j < |t| && t[j] == y;
    }
  }

  lemma AscendingTail(s: seq<Index>, lru: map<Index, int>)
    requires Ascending(s, lru) && s != []
    ensures Ascending(s[1..], lru) && Before(s[0], s[1..], lru) && s == [s[0]] + s[1..] && s[0] !in s[1..]
  {
    forall i | 0 <= i < |s[1..]|
      ensures s[1..][i] in lru && lru[s[0]] < lru[s[1..][i]]
    {
      assert s[1..][i] == s[i + 1];
    }
  }

  lemma Prepended(p: Index, s: seq<Index>, lru: map<Index, int>)
    requires Ascending(s, lru) && p in lru && (s != [] ==> lru[p] < lru[s[0]])
    ensures Ascending([p] + s, lru)
  {
    var n := [p] + s;
    forall i, j | 0 <= i < j < |n|
      ensures lru[n[i]] < lru[n[j]]
    {
      if j > 1 { assert lru[s[0]] < lru[s[j - 1]]; }
      if i > 0 { assert lru[s[i - 1]] < lru[s[j - 1]]; }
    }
  }

  lemma {:induction false} SortedAscends(s: seq<Index>, lru: map<Index, int>)
    requires Once(s) && In(s, lru) && forall i, j {:trigger s[i], s[j]} | 0 <= i < j < |s| :: lru[s[i]] != lru[s[j]]
    ensures Ascending(Sorted(s, lru), lru)
  {
    if s != [] {
      var n := |s| - 1;
      assert s == s[..n] + [s[n]];
      SortedAscends(s[..n], lru);
      forall i | 0 <= i < |Sorted(s[..n], lru)|
        ensures lru[Sorted(s[..n], lru)[i]] != lru[s[n]]
      {
        var x := Sorted(s[..n], lru)[i];
        SortedHolds(s[..n], lru, x);
        assert x in s[..n];
        var j :| 0 <= j < n && s[..n][j] == x;
        assert s[j] == x && lru[s[j]] != lru[s[n]];
      }
      PutAscends(Sorted(s[..n], lru), lru, s[n]);
    }
  }

  /** Two ascending lists of the same pages are the same. */
  lemma {:induction false} AscendingIs(s: seq<Index>, q: seq<Index>, lru: map<Index, int>)
    requires Ascending(s, lru) && Ascending(q, lru) && forall p :: p in s <==> p in q
    ensures s == q
  {
    if s == [] {
      var p := if q != [] then q[0] else 0;
      assert q != [] ==> p in q;
    } else {
      var p := s[0];
      assert p in s && p in q;
      var x := q[0];
      assert x in q && x in s;
      AscendingTail(s, lru);
      AscendingTail(q, lru);
      SameFirst(s, q, lru);
      forall p: Index ensures p in s[1..] <==> p in q[1..] { assert p in s <==> p in q; }
      AscendingIs(s[1..], q[1..], lru);
    }
  }

  lemma FirstLeast(s: seq<Index>, lru: map<Index, int>, i: int)
    requires Ascending(s, lru) && 0 <= i < |s|
    ensures lru[s[0]] <= lru[s[i]] && (i > 0 ==> lru[s[0]] < lru[s[i]])
  {
  }

  lemma SameFirst(s: seq<Index>, q: seq<Index>, lru: map<Index, int>)
    requires Ascending(s, lru) && Ascending(q, lru) && s != [] && q != [] && s[0] in q && q[0] in s
    ensures s[0] == q[0]
  {
    var i :| 0 <= i < |q| && q[i] == s[0];
    var j :| 0 <= j < |s| && s[j] == q[0];
    FirstLeast(q, lru, i);
    FirstLeast(s, lru, j);
  }

  /** Sorting all pages of the cache gives their order of use. */
  lemma SortedIsRecency(s: seq<Index>, q: seq<Index>, lru: map<Index, int>, cached: set<Index>, top: int)
    requires Recency(q, lru, cached, top) && Once(s) && forall p :: p in s <==> p in cached
    ensures In(s, lru) && Sorted(s, lru) == q
  {
    forall i | 0 <= i < |s| ensures s[i] in q && s[i] in lru { Member(s, q, cached, i); }
    forall i, j | 0 <= i < j < |s|
      ensures lru[s[i]] != lru[s[j]]
    {
      assert s[i] != s[j];
      Distinct(q, lru, cached, top, s[i], s[j]);
    }
    SortedAscends(s, lru);
    RecencyAscends(q, lru, cached, top);
    forall p ensures p in Sorted(s, lru) <==> p in q { SortedHolds(s, lru, p); }
    AscendingIs(Sorted(s, lru), q, lru);
  }

  lemma Member(s: seq<Index>, q: seq<Index>, cached: set<Index>, i: int)
    requires 0 <= i < |s| && (forall p :: p in s <==> p in cached)
             && forall p {:trigger p in q} {:trigger p in cached} :: p in q <==> p in cached
    ensures s[i] in q
  {
    var p := s[i];
    assert p in s;
  }

  lemma Distinct(q: seq<Index>, lru: map<Index, int>, cached: set<Index>, top: int, p: Index, x: Index)
    requires Recency(q, lru, cached, top) && p in q && x in q && p != x
    ensures p in lru && x in lru && lru[p] != lru[x]
  {
    var i :| 0 <= i < |q| && q[i] == p;
    var j :| 0 <= j < |q| && q[j] == x;
    if i < j { assert lru[q[i]] < lru[q[j]]; } else { assert lru[q[j]] < lru[q[i]]; }
  }

  lemma RecencyAscends(q: seq<Index>, lru: map<Index, int>, cached: set<Index>, top: int)
    requires Recency(q, lru, cached, top)
    ensures Ascending(q, lru)
  {
  }

  /** The page is used: it moves to the end. */
  ghost function Used(q: seq<Index>, p: Index): seq<Index> {
    Others(q, p) + [p]
  }

  ghost function Others(q: seq<Index>, p: Index): seq<Index> {
    if q == [] then [] else if q[0] == p then Others(q[1..], p) else [q[0]] + Others(q[1..], p)
  }

  lemma {:induction false} OthersAre(q: seq<Index>, p: Index, lru: map<Index, int>)
    requires Ascending(q, lru)
    ensures Ascending(Others(q, p), lru) && forall x {:trigger x in q} :: x in Others(q, p) <==> x in q && x != p
  {
    if q != [] {
      AscendingTail(q, lru);
      OthersAre(q[1..], p, lru);
      if q[0] != p {
        StillBehind(q[0], Others(q[1..], p), lru, q[1..]);
        Prepended(q[0], Others(q[1..], p), lru);
      }
    }
  }

  lemma UsedRecency(q: seq<Index>, lru: map<Index, int>, cached: set<Index>, top: int, p: Index)
    requires Recency(q, lru, cached, top) && top >= 0
    ensures Recency(Used(q, p), lru[p := top], cached + {p}, top + 1)
  {
    RecencyAscends(q, lru, cached, top);
    OthersAre(q, p, lru);
    var u, o, n := Used(q, p), Others(q, p), lru[p := top];
    forall i | 0 <= i < |o|
      ensures o[i] in q && o[i] != p && o[i] in lru && 0 <= lru[o[i]] < top
    {
      var x := o[i];
      assert x in o && x in q;
      var j :| 0 <= j < |q| && q[j] == x;
    }
    forall x
      ensures x in u <==> x in cached + {p}
    {
      assert x in o <==> x in q && x != p;
      assert x in u <==> x in o || x == p;
    }
    forall i, j | 0 <= i < j < |u|
      ensures n[u[i]] < n[u[j]]
    {
      if j < |o| { assert lru[o[i]] < lru[o[j]]; }
    }
  }

  // ---------- eviction ----------

  /** What is left when the first clean pages go, n at most. */
  ghost function Evicted(q: seq<Index>, dirty: map<Index, bool>, n: int): seq<Index> {
    if q == [] || n <= 0 then q
    else if q[0] in dirty && dirty[q[0]] then [q[0]] + Evicted(q[1..], dirty, n)
    else Evicted(q[1..], dirty, n - 1)
  }

  ghost function CleanOnes(q: seq<Index>, dirty: map<Index, bool>): nat {
    if q == [] then 0 else (if q[0] in dirty && dirty[q[0]] then 0 else 1) + CleanOnes(q[1..], dirty)
  }

  /** As many pages go as are too many, unless there are not enough clean ones. */
  lemma {:induction false} EvictedSize(q: seq<Index>, dirty: map<Index, bool>, n: int)
    requires n >= 0
    ensures |Evicted(q, dirty, n)| == |q| - if CleanOnes(q, dirty) < n then CleanOnes(q, dirty) else n
  {
    if q != [] && n > 0 {
      if q[0] in dirty && dirty[q[0]] { EvictedSize(q[1..], dirty, n); } else { EvictedSize(q[1..], dirty, n - 1); }
    }
  }

  /** A page that goes is clean, and was used before every clean page that stays; dirty pages stay. */
  lemma {:induction false} EvictedOldest(q: seq<Index>, dirty: map<Index, bool>, n: int, lru: map<Index, int>,
      p: Index)
    requires Ascending(q, lru) && p in q && p !in Evicted(q, dirty, n)
    ensures !(p in dirty && dirty[p]) && p in lru
    ensures forall x | x in Evicted(q, dirty, n) && !(x in dirty && dirty[x]) :: x in lru && lru[p] < lru[x]
  {
    AscendingTail(q, lru);
    if q[0] in dirty && dirty[q[0]] {
      EvictedOldest(q[1..], dirty, n, lru, p);
    } else if p != q[0] {
      EvictedOldest(q[1..], dirty, n - 1, lru, p);
    } else {
      forall x | x in Evicted(q, dirty, n)
        ensures x in lru && lru[p] < lru[x]
      {
        EvictedFrom(q[1..], dirty, n - 1);
        var i :| 0 <= i < |q[1..]| && q[1..][i] == x;
      }
    }
  }

  lemma {:induction false} EvictedFrom(q: seq<Index>, dirty: map<Index, bool>, n: int)
    ensures forall x {:trigger x in Evicted(q, dirty, n)} | x in Evicted(q, dirty, n) :: x in q
  {
    if q != [] && n > 0 {
      assert q == [q[0]] + q[1..];
      if q[0] in dirty && dirty[q[0]] { EvictedFrom(q[1..], dirty, n); } else { EvictedFrom(q[1..], dirty, n - 1); }
    }
  }

  /** The pages that stay keep their order. */
  lemma {:induction false} EvictedOrder(q: seq<Index>, dirty: map<Index, bool>, n: int, lru: map<Index, int>)
    requires Ascending(q, lru)
    ensures Ascending(Evicted(q, dirty, n), lru)
  {
    if q != [] && n > 0 {
      AscendingTail(q, lru);
      if q[0] in dirty && dirty[q[0]] {
        EvictedOrder(q[1..], dirty, n, lru);
        EvictedFrom(q[1..], dirty, n);
        StillBehind(q[0], Evicted(q[1..], dirty, n), lru, q[1..]);
        Prepended(q[0], Evicted(q[1..], dirty, n), lru);
      } else {
        EvictedOrder(q[1..], dirty, n - 1, lru);
      }
    }
  }
}
