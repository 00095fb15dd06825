/** What a chain of slices says: the two 32-bit lengths, the key and the value. */
module RecordModel {
  import opened DataModel
  import opened Keys

  const LIMIT := 0x1_0000_0000

  // ---------- the 32-bit words of a record ----------

  function Le32(n: nat): (r: seq<byte>)
    ensures |r| == 4
  {
    [(n % 256) as byte, (n / 256 % 256) as byte, (n / 65536 % 256) as byte, (n / 16777216 % 256) as byte]
  }

  function FromLe32(b: seq<byte>): nat
    requires |b| >= 4
  {
    b[0] as nat + 256 * b[1] as nat + 65536 * b[2] as nat + 16777216 * b[3] as nat
  }

  lemma Le32RoundTrip(n: nat, rest: seq<byte>)
    requires n < LIMIT
    ensures FromLe32(Le32(n) + rest) == n
  {
    assert n / 65536 == n / 256 / 256 && n / 16777216 == n / 65536 / 256;
  }

  // ---------- one record ----------

  function RecordBytes(key: seq<byte>, val: seq<byte>): seq<byte> {
    Le32(8 + |key| + |val|) + Le32(|key|) + key + val
  }

  /** d is a record with this key and value. */
  ghost predicate Encodes(d: seq<byte>, key: seq<byte>, val: seq<byte>) {
    8 + |key| + |val| < LIMIT && d == RecordBytes(key, val)
  }

  /** The record can be taken apart again; the value is what is left behind the key. */
  lemma EncodesReads(d: seq<byte>, key: seq<byte>, val: seq<byte>)
    requires Encodes(d, key, val)
    ensures |d| == 8 + |key| + |val| && FromLe32(d) == |d| && FromLe32(d[4..]) == |key|
    ensures d[8..8 + |key|] == key && d[8 + |key|..] == val
  {
    var rest := Le32(|key|) + key + val;
    Le32RoundTrip(|d|, rest);
    assert d == Le32(|d|) + rest;
    assert d[4..] == Le32(|key|) + (key + val);
    Le32RoundTrip(|key|, key + val);
  }

  /** The words are little-endian; a record of 10 bytes: total, length of the key, key, value. */
  lemma RecordLayout()
    ensures Le32(0x0403_0201) == [1, 2, 3, 4]
    ensures RecordBytes([7], [9]) == [10, 0, 0, 0, 1, 0, 0, 0, 7, 9]
  {
    assert RecordBytes([7], [9]) == Le32(10) + Le32(1) + [7] + [9];
  }

  /** No two records have the same bytes. */
  lemma EncodesInjective(d: seq<byte>, key: seq<byte>, val: seq<byte>, k: seq<byte>, v: seq<byte>)
    requires Encodes(d, key, val) && Encodes(d, k, v)
    ensures key == k && val == v
  {
    EncodesReads(d, key, val);
    EncodesReads(d, k, v);
  }

  // ---------- the bytes of a chain ----------

  /** The bytes of the slices of a chain, one after the other. */
  ghost function Bytes(body: map<Ref, seq<byte>>, c: seq<Ref>): seq<byte> {
    if c == [] then [] else Bytes(body, c[..|c| - 1]) + if c[|c| - 1] in body then body[c[|c| - 1]] else []
  }

  lemma {:induction false} BytesFrame(a: map<Ref, seq<byte>>, b: map<Ref, seq<byte>>, c: seq<Ref>)
    requires forall r | r in c && r in a :: r in b && a[r] == b[r]
    requires forall r | r in c && r in b :: r in a
    ensures Bytes(a, c) == Bytes(b, c)
  {
    if c != [] { BytesFrame(a, b, c[..|c| - 1]); }
  }

  lemma {:induction false} BytesJoin(body: map<Ref, seq<byte>>, c: seq<Ref>, d: seq<Ref>)
    ensures Bytes(body, c + d) == Bytes(body, c) + Bytes(body, d)
  {
    if d == [] {
      assert c + d == c;
    } else {
      assert (c + d)[..|c + d| - 1] == c + d[..|d| - 1];
      BytesJoin(body, c, d[..|d| - 1]);
    }
  }

  /** Rewriting the last slice of a chain. */
  lemma BytesLast(body: map<Ref, seq<byte>>, c: seq<Ref>, b: seq<byte>)
    requires c != [] && c[|c| - 1] !in c[..|c| - 1]
    ensures Bytes(body[c[|c| - 1] := b], c) == Bytes(body, c[..|c| - 1]) + b
  {
    BytesFrame(body, body[c[|c| - 1] := b], c[..|c| - 1]);
  }

  /** A new empty slice behind a chain. */
  lemma NewLast(body: map<Ref, seq<byte>>, c: seq<Ref>, us: set<Ref>, r: Ref)
    requires r !in us && forall k {:trigger c[k]} | 0 <= k < |c| :: c[k] in us
    ensures Bytes(body[r := []], c + [r]) == Bytes(body, c) && r !in c
  {
    assert (c + [r])[..|c|] == c;
    BytesFrame(body, body[r := []], c);
  }

  lemma BytesHead(body: map<Ref, seq<byte>>, c: seq<Ref>, i: nat)
    requires i < |c| && c[i] in body
    ensures Bytes(body, c[i..]) == body[c[i]] + Bytes(body, c[i + 1..])
  {
    assert c[i..] == [c[i]] + c[i + 1..];
    BytesJoin(body, [c[i]], c[i + 1..]);
    assert [c[i]][..0] == [];
  }

  lemma NextPrefix(body: map<Ref, seq<byte>>, c: seq<Ref>, i: nat)
    requires i < |c| && c[i] in body
    ensures Bytes(body, c[..i + 1]) == Bytes(body, c[..i]) + body[c[i]]
    ensures i + 1 == |c| ==> Bytes(body, c[i + 1..]) == []
  {
    assert c[..i + 1][..i] == c[..i];
  }

  lemma NoBytes(body: map<Ref, seq<byte>>, c: seq<Ref>)
    ensures Bytes(body, c[..0]) == []
  {
  }

  lemma OneEmpty(body: map<Ref, seq<byte>>, r: Ref)
    requires r in body && body[r] == []
    ensures Bytes(body, [r]) == []
  {
    assert [r][..0] == [];
  }

  // ---------- all records ----------

  /** The bytes of every record.  A chain whose first slice is too short for the length words reads as nothing. */
  ghost function DataOf(ch: map<Ref, seq<Ref>>, body: map<Ref, seq<byte>>): map<Ref, seq<byte>> {
    map h | h in ch :: if h in body && |body[h]| >= 8 then Bytes(body, ch[h]) else []
  }

  lemma DataAt(ch: map<Ref, seq<Ref>>, body: map<Ref, seq<byte>>, h: Ref, m: map<Ref, seq<byte>>)
    requires h in ch && DataOf(ch, body) - {h} == m && h in body && |body[h]| >= 8
    ensures DataOf(ch, body) == m[h := Bytes(body, ch[h])]
  {
    forall g | g in ch && g != h
      ensures g in m && m[g] == DataOf(ch, body)[g]
    {
      assert g in DataOf(ch, body) - {h};
    }
  }

  lemma SameElsewhere(a: map<Ref, seq<byte>>, b: map<Ref, seq<byte>>, h: Ref, d: seq<byte>)
    requires a - {h} == b - {h}
    ensures a[h := d] == b[h := d]
  {
    forall g | g in a && g != h ensures g in b && a[g] == b[g] { assert g in a - {h}; }
    forall g | g in b && g != h ensures g in a { assert g in b - {h}; }
  }

  lemma DataWithout(ch: map<Ref, seq<Ref>>, body: map<Ref, seq<byte>>, h: Ref)
    ensures DataOf(ch - {h}, body) == DataOf(ch, body) - {h}
  {
  }

  /** Writing a slice of chain h, or a slice of no chain, leaves the bytes of another chain alone. */
  lemma OtherBytes(link: map<Ref, Ref>, ch: map<Ref, seq<Ref>>, own: map<Ref, Owner>, us: set<Ref>, open: set<Ref>,
      body: map<Ref, seq<byte>>, h: Ref, r: Ref, b: seq<byte>, g: Ref)
    requires ChainOK(link, ch, own, us, open, g) && (r in us ==> r in own && own[r].h == h) && g != h
    ensures Bytes(body[r := b], ch[g]) == Bytes(body, ch[g]) && g != r
  {
    assert ch[g][0] in us;
    BytesFrame(body, body[r := b], ch[g]);
  }

  lemma OthersKept(link: map<Ref, Ref>, ch: map<Ref, seq<Ref>>, own: map<Ref, Owner>, us: set<Ref>, open: set<Ref>,
      body: map<Ref, seq<byte>>, h: Ref, r: Ref, b: seq<byte>, c: map<Ref, seq<Ref>>)
    requires Chained(link, ch, own, us, open) && (r in us ==> r in own && own[r].h == h) && c - {h} == ch - {h}
    ensures DataOf(c, body[r := b]) - {h} == DataOf(ch, body) - {h}
    ensures h !in ch ==> DataOf(ch, body) - {h} == DataOf(ch, body)
  {
    hide ChainOK, Owned, Bytes;
    forall g | g in ch && g != h
      ensures g in c && c[g] == ch[g] && Bytes(body[r := b], ch[g]) == Bytes(body, ch[g]) && g != r
    {
      assert ChainOK(link, ch, own, us, open, g);
      OtherBytes(link, ch, own, us, open, body, h, r, b, g);
      assert g in ch - {h} && g in c - {h};
    }
    assert forall g | g in c && g != h :: g in c - {h};
  }

  /** Slice r becomes a record of its own, still empty. */
  lemma Begun(link: map<Ref, Ref>, ch: map<Ref, seq<Ref>>, own: map<Ref, Owner>, us: set<Ref>,
      body: map<Ref, seq<byte>>, r: Ref)
    requires Chained(link, ch, own, us, {}) && r !in us
    ensures r !in ch && Chained(link, ch[r := [r]], own[r := Owner(r, 0)], us + {r}, {r})
    ensures DataOf(ch[r := [r]], body[r := []]) - {r} == DataOf(ch, body)
  {
    hide Chained, DataOf;
    StartChain(link, ch, own, us, {}, r);
    assert {} + {r} == {r};
    OthersKept(link, ch, own, us, {}, body, r, r, [], ch[r := [r]]);
  }

  /** Slice r is linked behind the last slice of chain h. */
  lemma Extended(link: map<Ref, Ref>, ch: map<Ref, seq<Ref>>, own: map<Ref, Owner>, us: set<Ref>,
      body: map<Ref, seq<byte>>, h: Ref, r: Ref)
    requires Chained(link, ch, own, us, {h}) && r !in us && h in ch
    ensures ch[h] != [] && r !in ch[h] && r != h
    ensures Chained(link[ch[h][|ch[h]| - 1] := r], ch[h := ch[h] + [r]], own[r := Owner(h, |ch[h]|)], us + {r}, {h})
    ensures DataOf(ch[h := ch[h] + [r]], body[r := []]) - {h} == DataOf(ch, body) - {h}
    ensures Bytes(body[r := []], ch[h] + [r]) == Bytes(body, ch[h])
  {
    assert ch[h] != [] && h in us && forall k {:trigger ch[h][k]} | 0 <= k < |ch[h]| :: ch[h][k] in us by {
      assert ChainOK(link, ch, own, us, {h}, h);
      assert ch[h][0] == h;
    }
    hide Chained, DataOf, Bytes;
    ExtendChain(link, ch, own, us, {h}, h, r);
    OthersKept(link, ch, own, us, {h}, body, h, r, [], ch[h := ch[h] + [r]]);
    NewLast(body, ch[h], us, r);
  }

  /** A chain is cut behind its first k slices: the rest, if any, becomes a chain of its own. */
  lemma CutOff(link: map<Ref, Ref>, ch: map<Ref, seq<Ref>>, own: map<Ref, Owner>, us: set<Ref>,
      body: map<Ref, seq<byte>>, h: Ref, k: nat)
    requires Chained(link, ch, own, us, {}) && h in ch && 0 < k < |ch[h]|
    ensures var t := ch[h][k]; var d := ch[h := ch[h][..k]][t := ch[h][k..]];
            && t !in ch && t != h && Chained(link, d, Tail(own, ch[h], h, k), us, {h})
            && DataOf(d, body) - {h} - {t} == DataOf(ch, body) - {h}
  {
    hide ChainOK, Owned, Bytes;
    SplitChain(link, ch, own, us, {}, h, k);
    assert {} + {h} == {h};
  }

  lemma OpenChain(link: map<Ref, Ref>, ch: map<Ref, seq<Ref>>, own: map<Ref, Owner>, us: set<Ref>, h: Ref)
    requires Chained(link, ch, own, us, {})
    ensures Chained(link, ch, own, us, {h})
  {
    forall x | x in ch
      ensures ChainOK(link, ch, own, us, {h}, x)
    {
      assert ChainOK(link, ch, own, us, {}, x);
    }
  }

  /** The first length word of a chain is overwritten. */
  lemma TotalWritten(a: map<Ref, seq<byte>>, b: map<Ref, seq<byte>>, c: seq<Ref>, n: nat, key: seq<byte>,
      val: seq<byte>)
    requires c != [] && c[0] !in c[1..] && c[0] in a && |a[c[0]]| >= 8 && Bytes(a, c[0..]) == RecordBytes(key, val)
    requires c[0] in b && b[c[0]] == Le32(n) + a[c[0]][4..] && b - {c[0]} == a - {c[0]}
    ensures Bytes(b, c[0..]) == Le32(n) + Le32(|key|) + key + val
  {
    forall r | r in c[1..] && r in a ensures r in b && a[r] == b[r] { assert r in a - {c[0]} && r in b - {c[0]}; }
    forall r | r in c[1..] && r in b ensures r in a { assert r in b - {c[0]} && r in a - {c[0]}; }
    BytesFrame(a, b, c[1..]);
    BytesHead(a, c, 0);
    BytesHead(b, c, 0);
    hide Bytes, Le32;
    WordReplaced(a[c[0]], Bytes(a, c[1..]), Le32(8 + |key| + |val|), Le32(n), Le32(|key|) + key + val);
    assert Le32(8 + |key| + |val|) + (Le32(|key|) + key + val) == RecordBytes(key, val);
    assert Le32(n) + (Le32(|key|) + key + val) == Le32(n) + Le32(|key|) + key + val;
  }

  /** The first word of some bytes is overwritten. */
  lemma WordReplaced(page: seq<byte>, tail: seq<byte>, word: seq<byte>, now: seq<byte>, rest: seq<byte>)
    requires |page| >= 4 && |word| == |now| == 4 && page + tail == word + rest
    ensures now + page[4..] + tail == now + rest
  {
    assert (page + tail)[4..] == page[4..] + tail;
    assert (word + rest)[4..] == rest;
  }

  /** The bytes in front of place `pass` of slice i. */
  lemma PrefixIs(body: map<Ref, seq<byte>>, c: seq<Ref>, i: nat, pass: nat, head: seq<byte>, val: seq<byte>)
    requires i < |c| && c[i] in body && pass <= |body[c[i]]| && Bytes(body, c[0..]) == head + val
    requires |head| == |Bytes(body, c[..i])| + pass
    ensures Bytes(body, c[..i]) + body[c[i]][..pass] == head
  {
    BytesHead(body, c, i);
    BytesJoin(body, c[..i], c[i..]);
    assert c[..i] + c[i..] == c[0..];
    hide Bytes;
    assert (Bytes(body, c[..i]) + body[c[i]][..pass]) == Bytes(body, c[0..])[..|head|];
  }
}
