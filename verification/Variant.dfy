/** Printing and parsing of the variants of `znet/common/variant.h`. */
module Variant {
  import opened Keys

  datatype Variant =
    | Undef
    | Int(value: int)
    | Str(text: seq<byte>)
    | List(items: seq<Variant>)
    | Dict(pairs: seq<Pair>)        // a std::map: ascending in the text of the keys

  datatype Pair = Pair(key: Variant, val: Variant)

  datatype Parsed<T> = Fail | Done(value: T, rest: seq<byte>)

  const MAXINT := 0x7fff_ffff_ffff_ffff

  // ---------- numbers ----------

  predicate IsDigit(c: byte) { 48 <= c <= 57 }

  function Decimal(n: nat): (r: seq<byte>)
    ensures r != [] && forall i | 0 <= i < |r| :: IsDigit(r[i])
  {
    if n < 10 then [(48 + n) as byte] else Decimal(n / 10) + [(48 + n % 10) as byte]
  }

  /** "%lld". */
  function Printed(n: int): seq<byte> {
    if n < 0 then [45] + Decimal(-n) else Decimal(n)
  }

  function Number(d: seq<byte>): nat
    requires forall i | 0 <= i < |d| :: IsDigit(d[i])
  {
    if d == [] then 0 else assert IsDigit(d[|d| - 1]); 10 * Number(d[..|d| - 1]) + (d[|d| - 1] as int - 48)
  }

  lemma {:induction false} DecimalNumber(n: nat)
    ensures Number(Decimal(n)) == n
  {
    if n >= 10 {
      DecimalNumber(n / 10);
      assert Decimal(n)[..|Decimal(n)| - 1] == Decimal(n / 10);
    } else {
      assert Decimal(n)[..0] == [];
    }
  }

  /** The digits of a number have their decimal places. */
  lemma Places(d: seq<byte>, c: byte)
    requires IsDigit(c) && forall i | 0 <= i < |d| :: IsDigit(d[i])
    ensures Number([]) == 0 && Number(d + [c]) == 10 * Number(d) + (c as int - 48)
  {
    assert (d + [c])[..|d|] == d;
  }

  /** Without zeros in front there is one way to write a number. */
  lemma {:induction false} DecimalOnly(d: seq<byte>)
    requires d != [] && forall i | 0 <= i < |d| :: IsDigit(d[i])
    ensures Decimal(Number(d)) == d <==> |d| == 1 || d[0] != 48
  {
    if |d| == 1 {
      assert Number(d[..0]) == 0 && IsDigit(d[0]);
    } else {
      var front, last := d[..|d| - 1], d[|d| - 1];
      assert IsDigit(last) && d == front + [last];
      Places(front, last);
      if |front| == 1 {
        assert IsDigit(front[0]) && Number(front[..0]) == 0;
        assert Number(front) == front[0] as int - 48;
      }
      DecimalOnly(front);
      DecimalFirst(Number(front));
      DecimalFirst(Number(d));
    }
  }

  lemma {:induction false} DecimalFirst(n: nat)
    ensures n == 0 ==> Decimal(n) == [48]
    ensures n > 0 ==> Decimal(n)[0] != 48
  {
    if n >= 10 { DecimalFirst(n / 10); }
  }

  function Power10(k: nat): nat {
    if k == 0 then 1 else 10 * Power10(k - 1)
  }

  /** A number has at most k digits exactly if it is below the k-th power of ten. */
  lemma {:induction false} DecimalLength(n: nat, k: nat)
    requires k > 0
    ensures |Decimal(n)| <= k <==> n < Power10(k)
  {
    if n >= 10 && k > 1 {
      DecimalLength(n / 10, k - 1);
    } else if k == 1 {
      assert Power10(1) == 10 * Power10(0);
    } else {
      PowerAbove(k);
    }
  }

  lemma {:induction false} PowerAbove(k: nat)
    requires k > 0
    ensures Power10(k) >= 10
  {
    if k > 1 { PowerAbove(k - 1); }
  }

  /** The bound of the prefix buffer. */
  lemma SixDigits(n: nat)
    ensures |Decimal(n)| <= 6 <==> n < 1000000
  {
    DecimalLength(n, 6);
    assert Power10(3) == 1000;
  }

  /** The length of the leading digits. */
  function DigitsAt(s: seq<byte>): (n: nat)
    ensures n <= |s| && (forall i | 0 <= i < n :: IsDigit(s[i])) && (n < |s| ==> !IsDigit(s[n]))
  {
    if s == [] || !IsDigit(s[0]) then 0 else 1 + DigitsAt(s[1..])
  }

  lemma {:induction false} DigitsEnd(d: seq<byte>, c: byte, rest: seq<byte>)
    requires !IsDigit(c) && forall i | 0 <= i < |d| :: IsDigit(d[i])
    ensures DigitsAt(d + [c] + rest) == |d|
  {
    if d != [] {
      assert (d + [c] + rest)[1..] == d[1..] + [c] + rest;
      DigitsEnd(d[1..], c, rest);
    } else {
      assert d + [c] + rest == [c] + rest;
    }
  }

  // ---------- printing ----------

  function Enc(v: Variant): (r: seq<byte>)
    ensures r != []
    decreases v
  {
    match v
    case Undef => [101]
    case Int(n) => [105] + Printed(n) + [101]
    case Str(t) => Decimal(|t|) + [58] + t
    case List(items) => [108] + EncItems(items) + [101]
    case Dict(pairs) => [100] + EncPairs(pairs) + [101]
  }

  function EncItems(items: seq<Variant>): seq<byte>
    decreases items
  {
    if items == [] then [] else Enc(items[0]) + EncItems(items[1..])
  }

  function EncPairs(pairs: seq<Pair>): seq<byte>
    decreases pairs
  {
    if pairs == [] then [] else EncPair(pairs[0]) + EncPairs(pairs[1..])
  }

  function EncPair(p: Pair): seq<byte>
    decreases p
  {
    Enc(p.key) + Enc(p.val)
  }

  /** toString(), by which a dictionary is ordered. */
  function Text(v: Variant): seq<byte> {
    match v
    case Undef => []
    case Int(n) => Printed(n)
    case Str(t) => t
    case _ => Enc(v)
  }

  // ---------- parsing ----------

  /** insert() of std::map: in order, and a key that is there wins. */
  function InsertPair(pairs: seq<Pair>, p: Pair): seq<Pair> {
    if pairs == [] then [p]
    else if Cmp(Text(p.key), Text(pairs[0].key)) < 0 then [p] + pairs
    else if Cmp(Text(p.key), Text(pairs[0].key)) == 0 then pairs
    else [pairs[0]] + InsertPair(pairs[1..], p)
  }

  function DecInt(s: seq<byte>): Parsed<Variant> {
    var n := DigitsAt(s);
    if n < |s| && s[n] != 101 then Fail
    else if n == 0 then Fail
    else
      var v := Number(s[..n]);
      Done(Int(if v > MAXINT then MAXINT else v), if n < |s| then s[n + 1..] else [])
  }

  function DecStr(s: seq<byte>): Parsed<Variant> {
    var n := DigitsAt(s);
    if n == |s| || s[n] != 58 then Fail
    else
      var len := Number(s[..n]);
      if |s| - n - 1 < len then Fail else Done(Str(s[n + 1..n + 1 + len]), s[n + 1 + len..])
  }

  function Dec(s: seq<byte>): (r: Parsed<Variant>)
    ensures r.Done? ==> |r.rest| < |s|
    decreases |s|, 0
  {
    if s == [] then Fail
    else if s[0] == 105 then DecInt(s[1..])
    else if IsDigit(s[0]) then DecStr(s)
    else if s[0] == 108 then
      (match DecItems(s[1..], []) case Fail => Fail case Done(items, rest) => Done(List(items), rest))
    else if s[0] == 100 then
      (match DecPairs(s[1..], []) case Fail => Fail case Done(pairs, rest) => Done(Dict(pairs), rest))
    else if s[0] == 101 then Done(Undef, s[1..])
    else Fail
  }

  function DecItems(s: seq<byte>, items: seq<Variant>): (r: Parsed<seq<Variant>>)
    ensures r.Done? ==> |r.rest| <= |s|
    decreases |s|, 1
  {
    if s == [] then Done(items, [])
    else if s[0] == 101 then Done(items, s[1..])
    else match Dec(s) case Fail => Fail case Done(v, rest) => DecItems(rest, items + [v])
  }

  function DecPairs(s: seq<byte>, pairs: seq<Pair>): (r: Parsed<seq<Pair>>)
    ensures r.Done? ==> |r.rest| <= |s|
    decreases |s|, 1
  {
    if s == [] then Done(pairs, [])
    else if s[0] == 101 then Done(pairs, s[1..])
    else
      match Dec(s)
      case Fail => Fail
      case Done(k, after) =>
        if after == [] then Fail
        else match Dec(after) case Fail => Fail case Done(v, rest) => DecPairs(rest, InsertPair(pairs, Pair(k, v)))
  }

  // ---------- what can be read back ----------

  /** What the parser can give: no negative numbers, no undef where it would end a list or a dictionary,
      dictionaries in order. */
  ghost predicate Readable(v: Variant)
    decreases v
  {
    match v
    case Undef => true
    case Int(n) => 0 <= n <= MAXINT
    case Str(t) => true
    case List(items) => forall i {:trigger items[i]} | 0 <= i < |items| :: items[i] != Undef && Readable(items[i])
    case Dict(pairs) => Sorted(pairs) && forall i {:trigger pairs[i]} | 0 <= i < |pairs| :: ReadablePair(pairs[i])
  }

  ghost predicate ReadablePair(p: Pair)
    decreases p
  {
    p.key != Undef && Readable(p.key) && Readable(p.val)
  }

  ghost predicate Before(pairs: seq<Pair>, i: int, j: int) {
    0 <= i < j < |pairs| ==> Cmp(Text(pairs[i].key), Text(pairs[j].key)) < 0
  }

  ghost predicate Sorted(pairs: seq<Pair>) {
    forall i, j {:trigger Before(pairs, i, j)} | 0 <= i < j < |pairs| :: Before(pairs, i, j)
  }

  ghost predicate AllReadable(pairs: seq<Pair>) {
    forall i {:trigger pairs[i]} | 0 <= i < |pairs| :: ReadablePair(pairs[i])
  }

  ghost predicate Elements(items: seq<Variant>) {
    forall i {:trigger items[i]} | 0 <= i < |items| :: items[i] != Undef && Readable(items[i])
  }

  /** The first byte of a printed value tells what it is. */
  lemma FirstByte(v: Variant)
    requires v != Undef
    ensures Enc(v)[0] != 101
  {
    match v
    case Str(t) => assert IsDigit(Decimal(|t|)[0]);
    case _ =>
  }

  lemma IntBack(n: nat, rest: seq<byte>)
    requires n <= MAXINT
    ensures DecInt(Printed(n) + [101] + rest) == Done(Int(n), rest)
  {
    var d := Decimal(n);
    var s := d + [101] + rest;
    DigitsEnd(d, 101, rest);
    DecimalNumber(n);
    assert s[..|d|] == d && s[|d| + 1..] == rest;
  }

  lemma Parts(d: seq<byte>, c: byte, t: seq<byte>, rest: seq<byte>)
    ensures var s := d + [c] + t + rest;
            && s == d + [c] + (t + rest) && |s| == |d| + 1 + |t| + |rest| && s[|d|] == c
            && s[..|d|] == d && s[|d| + 1..|d| + 1 + |t|] == t && s[|d| + 1 + |t|..] == rest
  {
  }

  lemma StrBack(t: seq<byte>, rest: seq<byte>)
    ensures DecStr(Decimal(|t|) + [58] + t + rest) == Done(Str(t), rest)
  {
    var d := Decimal(|t|);
    Parts(d, 58, t, rest);
    DigitsEnd(d, 58, t + rest);
    DecimalNumber(|t|);
    hide Decimal, Number;
    assert DigitsAt(d + [58] + t + rest) == |d|;
  }

  /** Parsing gives back what was printed and leaves exactly what follows it. */
  lemma {:induction false} RoundTrip(v: Variant, rest: seq<byte>)
    requires Readable(v)
    ensures Dec(Enc(v) + rest) == Done(v, rest)
    decreases v, 0
  {
    match v
    case Undef => assert (Enc(v) + rest)[1..] == rest;
    case Int(n) =>
      assert (Enc(v) + rest)[1..] == Printed(n) + [101] + rest;
      IntBack(n, rest);
    case Str(t) =>
      StrFirst(t, rest);
      StrBack(t, rest);
    case List(items) =>
      ListBytes(v, rest);
      ItemsBack(items, [], [101] + rest);
    case Dict(pairs) =>
      DictBytes(v, rest);
      PairsBack(pairs, [], [101] + rest);
  }

  lemma StrFirst(t: seq<byte>, rest: seq<byte>)
    ensures var s := Enc(Str(t)) + rest; s == Decimal(|t|) + [58] + t + rest && s != [] && IsDigit(s[0])
  {
    assert IsDigit(Decimal(|t|)[0]);
  }

  lemma ListBytes(v: Variant, rest: seq<byte>)
    requires v.List?
    ensures var s := Enc(v) + rest;
            s[0] == 108 && s[1..] == EncItems(v.items) + ([101] + rest) && [] + v.items == v.items
    ensures Readable(v) ==> Elements(v.items)
  {
  }

  lemma DictBytes(v: Variant, rest: seq<byte>)
    requires v.Dict?
    ensures var s := Enc(v) + rest;
            s[0] == 100 && s[1..] == EncPairs(v.pairs) + ([101] + rest) && [] + v.pairs == v.pairs
    ensures Readable(v) ==> AllReadable(v.pairs) && Sorted(v.pairs)
  {
  }

  lemma {:induction false} ItemsBack(items: seq<Variant>, done: seq<Variant>, tail: seq<byte>)
    requires Elements(items)
    ensures DecItems(EncItems(items) + tail, done) == DecItems(tail, done + items)
    decreases items, 1
  {
    hide Enc, Dec, DecItems, Readable, Elements;
    if items == [] {
      assert EncItems(items) + tail == tail && done + items == done;
    } else {
      FirstOfItems(items);
      OneOver(done, items);
      hide EncItems;
      RoundTrip(items[0], EncItems(items[1..]) + tail);
      ItemBack(items, done, tail);
      ItemsBack(items[1..], done + [items[0]], tail);
    }
  }

  lemma FirstOfItems(items: seq<Variant>)
    requires items != [] && Elements(items)
    ensures Readable(items[0]) && Elements(items[1..]) && Enc(items[0])[0] != 101
  {
    hide Enc, Readable;
    assert items[0] != Undef && Readable(items[0]);
    assert forall i | 0 <= i < |items| - 1 :: items[1..][i] == items[i + 1];
    FirstByte(items[0]);
  }

  /** The first of the items. */
  lemma ItemBack(items: seq<Variant>, done: seq<Variant>, tail: seq<byte>)
    requires items != [] && Enc(items[0])[0] != 101
    requires Dec(Enc(items[0]) + (EncItems(items[1..]) + tail)) == Done(items[0], EncItems(items[1..]) + tail)
    ensures DecItems(EncItems(items) + tail, done) == DecItems(EncItems(items[1..]) + tail, done + [items[0]])
  {
    hide Dec;
    assert Enc(items[0]) != [];
    hide Enc;
    assert EncItems(items) == Enc(items[0]) + EncItems(items[1..]);
    hide EncItems;
    assert Enc(items[0]) + EncItems(items[1..]) + tail == Enc(items[0]) + (EncItems(items[1..]) + tail);
  }

  /** A key behind all others is put at the end. */
  lemma {:induction false} InsertLast(pairs: seq<Pair>, p: Pair)
    requires forall i {:trigger pairs[i]} | 0 <= i < |pairs| :: Cmp(Text(pairs[i].key), Text(p.key)) < 0
    ensures InsertPair(pairs, p) == pairs + [p]
  {
    if pairs != [] {
      CmpFlip(Text(pairs[0].key), Text(p.key));
      InsertLast(pairs[1..], p);
      assert pairs == [pairs[0]] + pairs[1..];
    }
  }

  lemma PairBytes(pairs: seq<Pair>, tail: seq<byte>)
    requires pairs != []
    ensures EncPairs(pairs) + tail == Enc(pairs[0].key) + (Enc(pairs[0].val) + (EncPairs(pairs[1..]) + tail))
  {
    hide Enc;
    assert EncPairs(pairs) == EncPair(pairs[0]) + EncPairs(pairs[1..]);
    hide EncPairs;
    Joined(Enc(pairs[0].key), Enc(pairs[0].val), EncPairs(pairs[1..]), tail);
  }

  lemma Joined(a: seq<byte>, b: seq<byte>, c: seq<byte>, d: seq<byte>)
    ensures (a + b) + c + d == a + (b + (c + d))
  {
  }

  /** The next pair is parsed and put at the end. */
  lemma NextPair(s: seq<byte>, done: seq<Pair>, p: Pair, after: seq<byte>, more: seq<byte>)
    requires s != [] && s[0] != 101 && Dec(s) == Done(p.key, after) && after != [] && Dec(after) == Done(p.val, more)
    requires AllBelow(done, Text(p.key))
    ensures DecPairs(s, done) == DecPairs(more, done + [p])
  {
    InsertLast(done, p);
    hide Dec, InsertPair, Text;
  }

  ghost predicate AllBelow(pairs: seq<Pair>, t: seq<byte>) {
    forall i {:trigger pairs[i]} | 0 <= i < |pairs| :: Cmp(Text(pairs[i].key), t) < 0
  }

  lemma {:induction false} PairsBack(pairs: seq<Pair>, done: seq<Pair>, tail: seq<byte>)
    requires AllReadable(pairs) && Sorted(done + pairs)
    ensures DecPairs(EncPairs(pairs) + tail, done) == DecPairs(tail, done + pairs)
    decreases pairs, 1
  {
    hide Enc, Dec, DecPairs, AllReadable, ReadablePair, Sorted;
    if pairs == [] {
      assert EncPairs(pairs) + tail == tail && done + pairs == done;
    } else {
      FirstOfPairs(pairs);
      OneOver(done, pairs);
      hide EncPairs;
      PairBack(pairs[0], EncPairs(pairs[1..]) + tail);
      FrontBack(pairs, done, tail);
      PairsBack(pairs[1..], done + [pairs[0]], tail);
    }
  }

  lemma OneOver<T>(done: seq<T>, rest: seq<T>)
    requires rest != []
    ensures done + [rest[0]] + rest[1..] == done + rest
  {
  }

  /** The first of the pairs. */
  lemma FrontBack(pairs: seq<Pair>, done: seq<Pair>, tail: seq<byte>)
    requires pairs != [] && Sorted(done + pairs) && Enc(pairs[0].key)[0] != 101
    requires var (p, more) := (pairs[0], EncPairs(pairs[1..]) + tail);
             && Dec(Enc(p.key) + (Enc(p.val) + more)) == Done(p.key, Enc(p.val) + more)
             && Dec(Enc(p.val) + more) == Done(p.val, more)
    ensures DecPairs(EncPairs(pairs) + tail, done) == DecPairs(EncPairs(pairs[1..]) + tail, done + [pairs[0]])
  {
    hide Dec, DecPairs, EncPairs, Sorted, AllBelow;
    BelowNext(done, pairs);
    PairBytes(pairs, tail);
    var (p, more) := (pairs[0], EncPairs(pairs[1..]) + tail);
    assert Enc(p.key) != [] && Enc(p.val) != [];
    hide Enc;
    NextPair(EncPairs(pairs) + tail, done, p, Enc(p.val) + more, more);
  }

  lemma FirstOfPairs(pairs: seq<Pair>)
    requires pairs != [] && AllReadable(pairs)
    ensures ReadablePair(pairs[0]) && AllReadable(pairs[1..])
    ensures Enc(pairs[0].key)[0] != 101
  {
    hide Enc, Readable;
    assert ReadablePair(pairs[0]);
    assert forall i | 0 <= i < |pairs| - 1 :: pairs[1..][i] == pairs[i + 1];
    FirstByte(pairs[0].key);
  }

  lemma BelowNext(done: seq<Pair>, pairs: seq<Pair>)
    requires pairs != [] && Sorted(done + pairs)
    ensures AllBelow(done, Text(pairs[0].key))
  {
    hide Text, Cmp;
    forall i | 0 <= i < |done|
      ensures Cmp(Text(done[i].key), Text(pairs[0].key)) < 0
    {
      assert Before(done + pairs, i, |done|);
    }
  }

  lemma {:induction false} PairBack(p: Pair, more: seq<byte>)
    requires ReadablePair(p)
    ensures Dec(Enc(p.key) + (Enc(p.val) + more)) == Done(p.key, Enc(p.val) + more)
    ensures Dec(Enc(p.val) + more) == Done(p.val, more)
    decreases p, 1
  {
    RoundTrip(p.key, Enc(p.val) + more);
    RoundTrip(p.val, more);
  }

  // ---------- what the parser gives can be printed and read again ----------

  ghost predicate Ahead(t: seq<byte>, pairs: seq<Pair>) {
    forall i {:trigger pairs[i]} | 0 <= i < |pairs| :: Cmp(t, Text(pairs[i].key)) < 0
  }

  lemma SortedFront(pairs: seq<Pair>)
    requires Sorted(pairs) && pairs != []
    ensures Sorted(pairs[1..]) && Ahead(Text(pairs[0].key), pairs[1..])
  {
    var r := pairs[1..];
    forall i, j | 0 <= i < j < |r| ensures Before(r, i, j) { assert Before(pairs, i + 1, j + 1); }
    forall i | 0 <= i < |r| ensures Cmp(Text(pairs[0].key), Text(r[i].key)) < 0 { assert Before(pairs, 0, i + 1); }
  }

  lemma SortedCons(p: Pair, pairs: seq<Pair>)
    requires Sorted(pairs) && Ahead(Text(p.key), pairs)
    ensures Sorted([p] + pairs)
  {
    hide Text, Cmp;
    var r := [p] + pairs;
    forall i, j | 0 <= i < j < |r|
      ensures Before(r, i, j)
    {
      if i > 0 { assert Before(pairs, i - 1, j - 1); }
    }
  }

  lemma {:induction false} InsertKeeps(pairs: seq<Pair>, p: Pair, t: seq<byte>)
    requires Sorted(pairs) && AllReadable(pairs) && ReadablePair(p)
    ensures Sorted(InsertPair(pairs, p)) && AllReadable(InsertPair(pairs, p))
    ensures Ahead(t, pairs) && Cmp(t, Text(p.key)) < 0 ==> Ahead(t, InsertPair(pairs, p))
  {
    if pairs != [] {
      SortedFront(pairs);
      var c := Cmp(Text(p.key), Text(pairs[0].key));
      if c < 0 {
        forall i | 0 <= i < |pairs|
          ensures Cmp(Text(p.key), Text(pairs[i].key)) < 0
        {
          if i > 0 {
            assert pairs[1..][i - 1] == pairs[i];
            CmpTransitive(Text(p.key), Text(pairs[0].key), Text(pairs[i].key));
          }
        }
        SortedCons(p, pairs);
      } else if c > 0 {
        CmpFlip(Text(p.key), Text(pairs[0].key));
        InsertKeeps(pairs[1..], p, t);
        InsertKeeps(pairs[1..], p, Text(pairs[0].key));
        SortedCons(pairs[0], InsertPair(pairs[1..], p));
      }
    }
  }

  lemma {:induction false} DecReadable(s: seq<byte>)
    ensures Dec(s).Done? ==> Readable(Dec(s).value)
    decreases |s|, 0
  {
    if s != [] && s[0] == 108 {
      DecItemsReadable(s[1..], []);
    } else if s != [] && s[0] == 100 {
      DecPairsReadable(s[1..], []);
    }
  }

  lemma {:induction false} DecItemsReadable(s: seq<byte>, items: seq<Variant>)
    requires Elements(items)
    ensures DecItems(s, items).Done? ==> Elements(DecItems(s, items).value)
    decreases |s|, 1
  {
    if s != [] && s[0] != 101 && Dec(s).Done? {
      DecReadable(s);
      UndefOnlyByE(s);
      DecItemsReadable(Dec(s).rest, items + [Dec(s).value]);
    }
  }

  lemma UndefOnlyByE(s: seq<byte>)
    requires s != [] && s[0] != 101 && Dec(s).Done?
    ensures Dec(s).value != Undef
  {
  }

  lemma {:induction false} DecPairsReadable(s: seq<byte>, pairs: seq<Pair>)
    requires AllReadable(pairs) && Sorted(pairs)
    ensures DecPairs(s, pairs).Done? ==> AllReadable(DecPairs(s, pairs).value) && Sorted(DecPairs(s, pairs).value)
    decreases |s|, 1
  {
    if s != [] && s[0] != 101 && Dec(s).Done? {
      var k, after := Dec(s).value, Dec(s).rest;
      DecReadable(s);
      UndefOnlyByE(s);
      if after != [] && Dec(after).Done? {
        DecReadable(after);
        var p := Pair(k, Dec(after).value);
        InsertKeeps(pairs, p, []);
        DecPairsReadable(Dec(after).rest, InsertPair(pairs, p));
      }
    }
  }

  /** A value is read back as it was printed exactly if it has no negative number, no undef as an element of a list
      or as a key, and its dictionaries are in order. */
  lemma ReadBackExactly(v: Variant, rest: seq<byte>)
    ensures Dec(Enc(v) + rest) == Done(v, rest) <==> Readable(v)
  {
    if Readable(v) {
      RoundTrip(v, rest);
    } else {
      DecReadable(Enc(v) + rest);
    }
  }

  /** For instance: a list with an undef in it, and a negative number. */
  lemma NotReadBack()
    ensures Dec(Enc(List([Undef, Int(1)]))) != Done(List([Undef, Int(1)]), [])
    ensures Dec(Enc(Int(-1))) == Fail
  {
    ReadBackExactly(List([Undef, Int(1)]), []);
    assert Enc(List([Undef, Int(1)])) + [] == Enc(List([Undef, Int(1)]));
    assert !(List([Undef, Int(1)]).items[0] != Undef);
    assert Enc(Int(-1)) == [105, 45] + Decimal(1) + [101];
  }

  // ---------- the format ----------

  ghost predicate Digits(d: seq<byte>) {
    forall i | 0 <= i < |d| :: IsDigit(d[i])
  }

  /** A number is read from the digits up to an "e" or the end, and one that is too large becomes the largest. */
  lemma IntFormat(s: seq<byte>, n: int, rest: seq<byte>)
    ensures DecInt(s) == Done(Int(n), rest) <==>
            exists d {:trigger Digits(d)} :: Digits(d) && d != [] && (s == d + [101] + rest || (s == d && rest == []))
                                             && n == (if Number(d) > MAXINT then MAXINT else Number(d))
  {
    assert !IsDigit(101);
    hide Number, DigitsAt, IsDigit;
    var k := DigitsAt(s);
    if DecInt(s) == Done(Int(n), rest) {
      assert Digits(s[..k]) && (k < |s| ==> s == s[..k] + [101] + rest) && (k == |s| ==> s == s[..k]);
    }
    forall d | Digits(d) && d != [] && (s == d + [101] + rest || (s == d && rest == []))
               && n == (if Number(d) > MAXINT then MAXINT else Number(d))
      ensures DecInt(s) == Done(Int(n), rest)
    {
      DigitsUnique(s, |d|);
      assert s[..|d|] == d && (|d| < |s| ==> s[|d| + 1..] == rest);
    }
  }

  /** A string is read as its length in digits, a colon and as many bytes. */
  lemma StrFormat(s: seq<byte>, t: seq<byte>, rest: seq<byte>)
    ensures DecStr(s) == Done(Str(t), rest) <==>
            exists d {:trigger Digits(d)} :: Digits(d) && s == d + [58] + t + rest && Number(d) == |t|
  {
    assert !IsDigit(58);
    hide Number, DigitsAt, IsDigit;
    var k := DigitsAt(s);
    if DecStr(s) == Done(Str(t), rest) {
      assert Digits(s[..k]) && s == s[..k] + [58] + t + rest;
    }
    forall d | Digits(d) && s == d + [58] + t + rest && Number(d) == |t|
      ensures DecStr(s) == Done(Str(t), rest)
    {
      Parts(d, 58, t, rest);
      DigitsUnique(s, |d|);
    }
  }

  /** A pair comes to the place of its key in the order of the texts, unless a key with that text is there. */
  lemma {:induction false} InsertPlace(pairs: seq<Pair>, p: Pair) returns (i: nat)
    requires Sorted(pairs)
    ensures i <= |pairs| && AllBelow(pairs[..i], Text(p.key))
    ensures i == |pairs| || Cmp(Text(p.key), Text(pairs[i].key)) <= 0
    ensures InsertPair(pairs, p) == if i < |pairs| && Text(pairs[i].key) == Text(p.key) then pairs
                                    else pairs[..i] + [p] + pairs[i..]
  {
    hide Cmp, Text, Sorted;
    i := 0;
    if pairs == [] {
      assert InsertPair(pairs, p) == pairs[..0] + [p] + pairs[0..];
    } else {
      CmpZero(Text(p.key), Text(pairs[0].key));
      CmpFlip(Text(p.key), Text(pairs[0].key));
      if Cmp(Text(p.key), Text(pairs[0].key)) > 0 {
        SortedFront(pairs);
        var k := InsertPlace(pairs[1..], p);
        i := k + 1;
        InsertBehind(pairs, p, k);
      } else {
        assert pairs[..0] + [p] + pairs[0..] == [p] + pairs;
      }
    }
  }

  lemma InsertBehind(pairs: seq<Pair>, p: Pair, k: nat)
    requires k < |pairs| && Cmp(Text(pairs[0].key), Text(p.key)) < 0 && Cmp(Text(p.key), Text(pairs[0].key)) > 0
    requires AllBelow(pairs[1..][..k], Text(p.key))
    ensures AllBelow(pairs[..k + 1], Text(p.key))
    ensures InsertPair(pairs[1..], p) == pairs[1..] ==> InsertPair(pairs, p) == pairs
    ensures InsertPair(pairs[1..], p) == pairs[1..][..k] + [p] + pairs[1..][k..] ==>
            InsertPair(pairs, p) == pairs[..k + 1] + [p] + pairs[k + 1..]
  {
    hide Cmp, Text;
    var f, g := pairs[..k + 1], pairs[1..][..k];
    assert f == [pairs[0]] + g && pairs[1..][k..] == pairs[k + 1..];
    assert [pairs[0]] + pairs[1..] == pairs;
    assert InsertPair(pairs, p) == [pairs[0]] + InsertPair(pairs[1..], p);
    assert [pairs[0]] + (g + [p] + pairs[k + 1..]) == f + [p] + pairs[k + 1..];
  }

  /** "i10e" and "i-7e". */
  lemma IntBytes()
    ensures Enc(Int(10)) == [105, 49, 48, 101] && Dec([105, 49, 48, 101]) == Done(Int(10), [])
    ensures Enc(Int(-7)) == [105, 45, 55, 101] && Dec([105, 45, 55, 101]) == Fail
  {
    assert Decimal(10) == Decimal(1) + [48] && Decimal(7) == [55];
    RoundTrip(Int(10), []);
    assert Enc(Int(10)) + [] == [105, 49, 48, 101];
    var s: seq<byte> := [45, 55, 101];
    assert [105, 45, 55, 101][1..] == s && DigitsAt(s) == 0;
  }

  /** "1:a", the list "li1e1:ae" and the dictionary "d1:ai1ee". */
  lemma ListedBytes()
    ensures Enc(Str([97])) == [49, 58, 97]
    ensures Enc(List([Int(1), Str([97])])) == [108, 105, 49, 101, 49, 58, 97, 101]
    ensures Enc(Dict([Pair(Str([97]), Int(1))])) == [100, 49, 58, 97, 105, 49, 101, 101]
    ensures Enc(List([Undef])) == [108, 101, 101]
  {
    assert Decimal(1) == [49];
    var a, n := Str([97]), Int(1);
    assert Enc(a) == [49, 58, 97] && Enc(n) == [105, 49, 101];
    assert EncItems([n, a]) == Enc(n) + EncItems([a]) && EncItems([a]) == Enc(a) + EncItems([]);
    assert EncItems([Undef]) == [101] + EncItems([]);
    assert EncPairs([Pair(a, n)]) == EncPair(Pair(a, n)) + EncPairs([]);
  }

  /** A list that is cut off ends there. */
  lemma CutOffList(items: seq<Variant>)
    requires Readable(List(items))
    ensures Dec([108] + EncItems(items)) == Done(List(items), [])
  {
    hide Enc, EncItems, Readable;
    ListBytes(List(items), []);
    ItemsBack(items, [], []);
    assert [] + items == items && EncItems(items) + [] == EncItems(items);
    assert ([108] + EncItems(items))[1..] == EncItems(items);
  }

  /** So does a dictionary that is cut off, but not between a key and its value. */
  lemma CutOffDict(pairs: seq<Pair>, key: Variant)
    requires Readable(Dict(pairs)) && Readable(key) && key != Undef
    ensures Dec([100] + EncPairs(pairs)) == Done(Dict(pairs), [])
    ensures Dec([100] + EncPairs(pairs) + Enc(key)) == Fail
  {
    hide Enc, EncPairs, Sorted, Readable;
    DictBytes(Dict(pairs), []);
    FirstByte(key);
    RoundTrip(key, []);
    assert [] + pairs == pairs && Enc(key) + [] == Enc(key) && EncPairs(pairs) + [] == EncPairs(pairs);
    assert ([100] + EncPairs(pairs))[1..] == EncPairs(pairs);
    assert ([100] + EncPairs(pairs) + Enc(key))[1..] == EncPairs(pairs) + Enc(key);
    PairsBack(pairs, [], []);
    PairsBack(pairs, [], Enc(key));
  }

  /** The keys of a dictionary are in the order of their texts: 10 comes before 9. */
  lemma KeysByText()
    ensures InsertPair(InsertPair([], Pair(Int(9), Undef)), Pair(Int(10), Int(1)))
            == [Pair(Int(10), Int(1)), Pair(Int(9), Undef)]
  {
    assert Decimal(10) == Decimal(1) + [48] == [49, 48] && Decimal(9) == [57];
  }

  // ---------- the buffers ----------

  class Octets {
    var data: seq<byte>

    constructor ()
      ensures data == []
    {
      data := [];
    }

    method Append(b: seq<byte>)
      modifies this
      ensures data == old(data) + b
    {
      data := data + b;
    }
  }

  /** The length of every string fits into the buffer of its prefix: six digits. */
  ghost predicate Fits(v: Variant)
    decreases v
  {
    match v
    case Str(t) => |t| < 1000000
    case List(items) => forall i {:trigger items[i]} | 0 <= i < |items| :: Fits(items[i])
    case Dict(pairs) => forall i {:trigger pairs[i]} | 0 <= i < |pairs| :: FitsPair(pairs[i])
    case _ => true
  }

  ghost predicate FitsPair(p: Pair)
    decreases p
  {
    Fits(p.key) && Fits(p.val)
  }

  lemma {:induction false} ItemsMore(items: seq<Variant>, i: nat)
    requires i < |items|
    ensures EncItems(items[..i + 1]) == EncItems(items[..i]) + Enc(items[i])
  {
    hide Enc;
    if i == 0 {
      assert items[..1][1..] == [] && items[..0] == [];
    } else {
      ItemsMore(items[1..], i - 1);
      assert items[..i + 1][1..] == items[1..][..i] && items[..i][1..] == items[1..][..i - 1];
    }
  }

  lemma {:induction false} PairsMore(pairs: seq<Pair>, i: nat)
    requires i < |pairs|
    ensures EncPairs(pairs[..i + 1]) == EncPairs(pairs[..i]) + (Enc(pairs[i].key) + Enc(pairs[i].val))
  {
    hide Enc;
    if i == 0 {
      assert pairs[..1][1..] == [] && pairs[..0] == [];
    } else {
      PairsMore(pairs[1..], i - 1);
      assert pairs[..i + 1][1..] == pairs[1..][..i] && pairs[..i][1..] == pairs[1..][..i - 1];
    }
  }

  lemma Printing(v: Variant)
    ensures v == Undef ==> Enc(v) == [101]
    ensures v.Int? ==> Enc(v) == [105] + Printed(v.value) + [101]
    ensures v.Str? ==> Enc(v) == Decimal(|v.text|) + [58] + v.text
    ensures v.List? ==> Enc(v) == [108] + EncItems(v.items) + [101]
    ensures v.Dict? ==> Enc(v) == [100] + EncPairs(v.pairs) + [101]
  {
  }

  /** Encode(): the printed value is appended to the buffer. */
  method Encode(v: Variant, os: Octets)
    requires Fits(v)
    modifies os
    ensures os.data == old(os.data) + Enc(v)
    decreases v
  {
    hide Enc, EncItems, EncPairs, Printed, Decimal;
    Printing(v);
    match v
    case Undef => os.Append([101]);
    case Int(n) =>
      os.Append([105] + Printed(n) + [101]);
    case Str(t) =>
      os.Append(Decimal(|t|) + [58]);
      os.Append(t);
    case List(items) =>
      os.Append([108]);
      EncodeItems(items, os);
      os.Append([101]);
    case Dict(pairs) =>
      os.Append([100]);
      EncodeAll(pairs, os);
      os.Append([101]);
  }

  method EncodeItems(items: seq<Variant>, os: Octets)
    requires forall i {:trigger items[i]} | 0 <= i < |items| :: Fits(items[i])
    modifies os
    ensures os.data == old(os.data) + EncItems(items)
    decreases items
  {
    hide Enc, EncItems;
    ghost var start := os.data;
    var i := 0;
    assert EncItems(items[..0]) == [] by { NoItems(items); }
    while i < |items|
      invariant 0 <= i <= |items| && os.data == start + EncItems(items[..i])
    {
      ItemsMore(items, i);
      Encode(items[i], os);
      i := i + 1;
    }
    assert items[..|items|] == items;
  }

  lemma NoItems(items: seq<Variant>)
    ensures EncItems(items[..0]) == []
  {
  }

  lemma NoPairs(pairs: seq<Pair>)
    ensures EncPairs(pairs[..0]) == []
  {
  }

  method EncodeAll(pairs: seq<Pair>, os: Octets)
    requires forall i {:trigger pairs[i]} | 0 <= i < |pairs| :: FitsPair(pairs[i])
    modifies os
    ensures os.data == old(os.data) + EncPairs(pairs)
    decreases pairs
  {
    hide Enc, EncPairs;
    ghost var start := os.data;
    var i := 0;
    assert EncPairs(pairs[..0]) == [] by { NoPairs(pairs); }
    while i < |pairs|
      invariant 0 <= i <= |pairs| && os.data == start + EncPairs(pairs[..i])
    {
      PairsMore(pairs, i);
      EncodePair(pairs[i], os);
      i := i + 1;
    }
    assert pairs[..|pairs|] == pairs;
  }

  method EncodePair(p: Pair, os: Octets)
    requires FitsPair(p)
    modifies os
    ensures os.data == old(os.data) + (Enc(p.key) + Enc(p.val))
    decreases p
  {
    hide Enc;
    Encode(p.key, os);
    Encode(p.val, os);
  }

  /** What is left from place i on; the parser may step over the end of a list that was cut off. */
  function From(data: seq<byte>, i: nat): seq<byte> {
    if i <= |data| then data[i..] else []
  }

  /** What a method of the parser says is what the function says. */
  ghost predicate Says<T>(p: Parsed<T>, ok: bool, value: T, rest: seq<byte>) {
    (ok <==> p.Done?) && (ok ==> p == Done(value, rest))
  }

  lemma {:induction false} DigitsUnique(s: seq<byte>, n: nat)
    requires n <= |s| && (forall i | 0 <= i < n :: IsDigit(s[i])) && (n < |s| ==> !IsDigit(s[n]))
    ensures DigitsAt(s) == n
  {
    if n > 0 { DigitsUnique(s[1..], n - 1); }
  }

  method DecodeInt(data: seq<byte>, begin: nat) returns (ok: bool, atom: Variant, next: nat)
    requires begin <= |data|
    ensures Says(DecInt(data[begin..]), ok, atom, From(data, next)) && (ok ==> begin < next)
  {
    hide Number, DigitsAt, DecInt;
    ok, atom, next := true, Undef, begin;
    ghost var s := data[begin..];
    var v: seq<byte> := [];
    var ended := false;
    while next < |data| && !ended && ok
      invariant begin <= next <= |data| && (ok || !ended) && |v| <= |s|
      invariant v == s[..|v|] && (forall i | 0 <= i < |v| :: IsDigit(v[i]))
      invariant next == begin + |v| + (if ended || !ok then 1 else 0)
      invariant ended ==> s[|v|] == 101
      invariant !ok ==> s[|v|] != 101 && !IsDigit(s[|v|])
      decreases |data| - next
    {
      var c := data[next];
      next := next + 1;
      if IsDigit(c) {
        v := v + [c];
      } else if c == 101 {
        ended := true;
      } else {
        ok := false;
      }
    }
    ghost var ends := ok;
    if ok {
      if v == [] {
        ok := false;
      } else {
        var n := Number(v);
        atom := Int(if n > MAXINT then MAXINT else n);
      }
    }
    Behind(data, begin, |v|);
    IntRead(s, v, ends, ended, From(data, next), ok, atom);
  }

  /** The digits v of s were read, and the "e" behind them, or a byte that may not follow; r is what is left. */
  lemma IntRead(s: seq<byte>, v: seq<byte>, ends: bool, ended: bool, r: seq<byte>, ok: bool, atom: Variant)
    requires |v| <= |s| && v == s[..|v|] && Digits(v)
    requires if ended then ends && |v| < |s| && s[|v|] == 101 && r == s[|v| + 1..]
             else if ends then |v| == |s| && r == []
             else |v| < |s| && s[|v|] != 101 && !IsDigit(s[|v|])
    requires ok <==> ends && v != []
    requires ok ==> atom == Int(if Number(v) > MAXINT then MAXINT else Number(v))
    ensures Says(DecInt(s), ok, atom, r)
  {
    hide Number;
    DigitsAre(s, v);
    hide DigitsAt, Digits;
  }

  lemma DigitsAre(s: seq<byte>, v: seq<byte>)
    requires |v| <= |s| && v == s[..|v|] && Digits(v) && (|v| < |s| ==> !IsDigit(s[|v|]))
    ensures DigitsAt(s) == |v|
  {
    forall i | 0 <= i < |v|
      ensures IsDigit(s[i])
    {
      assert v[i] == s[i];
    }
    DigitsUnique(s, |v|);
  }

  lemma Behind(data: seq<byte>, begin: nat, n: nat)
    requires begin + n <= |data|
    ensures data[begin..][n..] == From(data, begin + n)
    ensures begin + n < |data| ==> data[begin..][n + 1..] == From(data, begin + n + 1)
  {
  }

  method DecodeStr(data: seq<byte>, begin: nat) returns (ok: bool, atom: Variant, next: nat)
    requires begin <= |data|
    ensures Says(DecStr(data[begin..]), ok, atom, From(data, next)) && (ok ==> begin < next)
  {
    ok, atom, next := false, Undef, begin;
    ghost var s := data[begin..];
    var end := begin;
    while end < |data| && IsDigit(data[end])
      invariant begin <= end <= |data| && forall i | begin <= i < end :: IsDigit(data[i])
    {
      end := end + 1;
    }
    DigitsUnique(s, end - begin);
    assert s[..end - begin] == data[begin..end];
    hide DigitsAt, IsDigit;
    var len := Number(data[begin..end]);
    hide Number;
    if end == |data| || data[end] != 58 || |data| - (end + 1) < len {
      return;
    }
    ok, next := true, end + 1 + len;
    atom := Str(data[end + 1..next]);
    ghost var n := end - begin;
    assert s[n + 1..n + 1 + len] == data[end + 1..next] && s[n + 1 + len..] == data[next..];
  }

  /** DecodeAtom(): the value that begins at `begin`. */
  method DecodeAtom(data: seq<byte>, begin: nat) returns (ok: bool, atom: Variant, next: nat)
    requires begin < |data|
    ensures Says(Dec(data[begin..]), ok, atom, From(data, next)) && (ok ==> begin < next)
    decreases |data| - begin, 0
  {
    ok, atom, next := false, Undef, begin;
    var c := data[begin];
    assert data[begin..][1..] == data[begin + 1..];
    if c == 105 {
      ok, atom, next := DecodeInt(data, begin + 1);
    } else if IsDigit(c) {
      ok, atom, next := DecodeStr(data, begin);
    } else if c == 108 {
      var items;
      ok, items, next := DecodeList(data, begin + 1);
      atom := List(items);
    } else if c == 100 {
      var pairs;
      ok, pairs, next := DecodeDict(data, begin + 1);
      atom := Dict(pairs);
    } else if c == 101 {
      ok, next := true, begin + 1;
    }
  }

  method DecodeList(data: seq<byte>, begin: nat) returns (ok: bool, items: seq<Variant>, next: nat)
    requires 0 < begin <= |data|
    ensures Says(DecItems(data[begin..], []), ok, items, From(data, next)) && (ok ==> begin < next)
    decreases |data| - begin, 1
  {
    ok, items, next := true, [], begin;
    while next < |data| && data[next] != 101
      invariant begin <= next && DecItems(From(data, next), items) == DecItems(data[begin..], [])
      decreases |data| - next
    {
      var item, after;
      ok, item, after := DecodeAtom(data, next);
      if !ok {
        return;
      }
      items, next := items + [item], after;
    }
    next := next + 1;
  }

  method DecodeDict(data: seq<byte>, begin: nat) returns (ok: bool, pairs: seq<Pair>, next: nat)
    requires 0 < begin <= |data|
    ensures Says(DecPairs(data[begin..], []), ok, pairs, From(data, next)) && (ok ==> begin < next)
    decreases |data| - begin, 1
  {
    ok, pairs, next := true, [], begin;
    while next < |data| && data[next] != 101
      invariant begin <= next && DecPairs(From(data, next), pairs) == DecPairs(data[begin..], [])
      decreases |data| - next
    {
      var key, val, after;
      ok, key, after := DecodeAtom(data, next);
      if !ok {
        return;
      }
      if after >= |data| {
        ok := false;
        return;
      }
      var last;
      ok, val, last := DecodeAtom(data, after);
      if !ok {
        return;
      }
      pairs, next := InsertPair(pairs, Pair(key, val)), last;
    }
    next := next + 1;
  }

  /** Printed into a buffer and parsed from it. */
  method PrintAndParse(v: Variant) returns (ok: bool, w: Variant)
    requires Fits(v)
    ensures Readable(v) ==> ok && w == v
    ensures ok && w == v ==> Readable(v)
  {
    var os := new Octets();
    Encode(v, os);
    assert os.data == Enc(v) && os.data[0..] == Enc(v) + [];
    var next;
    ok, w, next := DecodeAtom(os.data, 0);
    ReadBackExactly(v, []);
    DecReadable(Enc(v) + []);
  }
}
