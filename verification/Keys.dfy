/** Byte strings and their order, and the word-wise comparison of `znet/common/db.h`. */
module Keys {

  newtype byte = x: int | 0 <= x < 256

  const KEYLIMIT := 0x8000_0000

  /** A difference of lengths as compare() returns it: size_t cut to an int. */
  function AsInt(d: int): int { (d + 0x8000_0000) % 0x1_0000_0000 - 0x8000_0000 }

  /** Lexicographic order: negative, zero or positive as a stands before, at or behind b. */
  function Cmp(a: seq<byte>, b: seq<byte>): int {
    if a == [] || b == [] then |a| - |b|
    else if a[0] != b[0] then a[0] as int - b[0] as int
    else Cmp(a[1..], b[1..])
  }

  lemma {:induction false} CmpZero(a: seq<byte>, b: seq<byte>)
    ensures Cmp(a, b) == 0 <==> a == b
  {
    if a != [] && b != [] && a[0] == b[0] {
      CmpZero(a[1..], b[1..]);
      assert a == [a[0]] + a[1..] && b == [b[0]] + b[1..];
    }
  }

  lemma {:induction false} CmpFlip(a: seq<byte>, b: seq<byte>)
    ensures Cmp(a, b) == -Cmp(b, a)
  {
    if a != [] && b != [] && a[0] == b[0] { CmpFlip(a[1..], b[1..]); }
  }

  lemma {:induction false} CmpTransitive(a: seq<byte>, b: seq<byte>, c: seq<byte>)
    requires Cmp(a, b) < 0 && Cmp(b, c) < 0
    ensures Cmp(a, c) < 0
  {
    if a != [] && b != [] && c != [] && a[0] == b[0] == c[0] { CmpTransitive(a[1..], b[1..], c[1..]); }
  }

  /** A difference in equally long beginnings decides; equal beginnings do not matter. */
  lemma {:induction false} CmpParts(a: seq<byte>, b: seq<byte>, x: seq<byte>, y: seq<byte>)
    requires |a| == |b|
    ensures Cmp(a + x, b + y) == if a == b then Cmp(x, y) else Cmp(a, b)
  {
    if a == [] {
      assert a + x == x && b + y == y;
    } else {
      assert (a + x)[1..] == a[1..] + x && (b + y)[1..] == b[1..] + y;
      assert a == [a[0]] + a[1..] && b == [b[0]] + b[1..];
      if a[0] == b[0] { CmpParts(a[1..], b[1..], x, y); }
    }
  }

  /** The first byte in which two keys differ decides, and a key stands before its continuations. */
  lemma FirstDifference(p: seq<byte>, x: byte, a: seq<byte>, y: byte, b: seq<byte>)
    requires x < y
    ensures Cmp(p + [x] + a, p + [y] + b) < 0 && Cmp(p, p + [x] + a) < 0
  {
    CmpParts(p, p, [x] + a, [y] + b);
    CmpParts(p, p, [], [x] + a);
    assert p + [x] + a == p + ([x] + a) && p + [y] + b == p + ([y] + b) && p + [] == p;
  }

  // ---------- memcmp_fast ----------

  function Word(s: seq<byte>, i: nat): int
    requires i + 4 <= |s|
  {
    s[i] as int + 256 * s[i + 1] as int + 65536 * s[i + 2] as int + 16777216 * s[i + 3] as int
  }

  /** Byte k of a word, in its place. */
  function Part(w: int, unit: int): int
    requires unit > 0
  {
    w / unit % 256 * unit
  }

  /** The lowest byte in which the difference of two words is not zero is the first one in which they differ. */
  function WordSign(k1: int, k2: int): int {
    var comp := (k1 - k2) % 0x1_0000_0000;
    if Part(comp, 1) != 0 then Part(k1, 1) - Part(k2, 1)
    else if Part(comp, 256) != 0 then Part(k1, 256) - Part(k2, 256)
    else if Part(comp, 65536) != 0 then Part(k1, 65536) - Part(k2, 65536)
    else k1 / 16777216 - k2 / 16777216
  }

  ghost predicate SameSign(x: int, y: int) {
    (x < 0 <==> y < 0) && (x > 0 <==> y > 0)
  }

  lemma Low8(q: int, r: int)
    requires 0 <= r < 256
    ensures (256 * q + r) / 256 == q && (256 * q + r) % 256 == r
  {
  }

  lemma Low16(q: int, r: int)
    requires 0 <= r < 65536
    ensures (65536 * q + r) / 65536 == q
  {
  }

  lemma Low24(q: int, r: int)
    requires 0 <= r < 16777216
    ensures (16777216 * q + r) / 16777216 == q
  {
  }

  lemma Digits(a: int, b: int, c: int, d: int)
    requires 0 <= a < 256 && 0 <= b < 256 && 0 <= c < 256 && 0 <= d < 256
    ensures var w := a + 256 * b + 65536 * c + 16777216 * d;
            Part(w, 1) == a && Part(w, 256) == 256 * b && Part(w, 65536) == 65536 * c && w / 16777216 == d
  {
    var w := a + 256 * b + 65536 * c + 16777216 * d;
    Low8(b + 256 * c + 65536 * d, a);
    Low16(c + 256 * d, a + 256 * b);
    Low24(d, a + 256 * b + 65536 * c);
    Low8(c + 256 * d, b);
    Low8(d, c);
    assert w == 256 * (b + 256 * c + 65536 * d) + a;
    assert w == 65536 * (c + 256 * d) + (a + 256 * b);
    assert w == 16777216 * d + (a + 256 * b + 65536 * c);
    assert w / 256 == 256 * (c + 256 * d) + b;
    assert w / 65536 == 256 * d + c;
  }

  lemma LowByte(r: int, d: int, k: int)
    requires r == d + 256 * k && -256 < d < 256
    ensures r % 256 != 0 <==> d != 0
  {
    if d < 0 { assert r == (d + 256) + 256 * (k - 1); }
  }

  lemma Wrapped(x: int, q: int, r: int)
    requires x == 0x1_0000_0000 * q + r && 0 <= r < 0x1_0000_0000
    ensures x % 0x1_0000_0000 == r
  {
  }

  /** The lowest parts of a difference modulo 2^32. */
  lemma LowestPart(x: int, unit: int, d: int, m: int)
    requires unit == 1 || unit == 256 || unit == 65536
    requires x == unit * (d + 256 * m) && -256 < d < 256
    ensures Part(x % 0x1_0000_0000, unit) != 0 <==> d != 0
  {
    var y := d + 256 * m;
    if unit == 1 {
      var q, r := y / 0x1_0000_0000, y % 0x1_0000_0000;
      Wrapped(x, q, r);
      LowByte(r, d, m - 0x100_0000 * q);
    } else if unit == 256 {
      var q, r := y / 0x100_0000, y % 0x100_0000;
      Wrapped(x, q, 256 * r);
      LowByte(r, d, m - 0x1_0000 * q);
      assert 256 * r / 256 == r;
    } else {
      var q, r := y / 0x1_0000, y % 0x1_0000;
      Wrapped(x, q, 65536 * r);
      LowByte(r, d, m - 0x100 * q);
      assert 65536 * r / 65536 == r;
    }
  }

  lemma FourBytes(a: seq<byte>, b: seq<byte>)
    requires |a| == |b| == 4
    ensures Cmp(a, b) == if a[0] != b[0] then a[0] as int - b[0] as int
                         else if a[1] != b[1] then a[1] as int - b[1] as int
                         else if a[2] != b[2] then a[2] as int - b[2] as int
                         else a[3] as int - b[3] as int
  {
    CmpParts(a[..1], b[..1], a[1..], b[1..]);
    CmpParts(a[1..2], b[1..2], a[2..], b[2..]);
    CmpParts(a[2..3], b[2..3], a[3..], b[3..]);
    assert a == a[..1] + a[1..] && a[1..] == a[1..2] + a[2..] && a[2..] == a[2..3] + a[3..];
    assert b == b[..1] + b[1..] && b[1..] == b[1..2] + b[2..] && b[2..] == b[2..3] + b[3..];
  }

  lemma WordDiffers(a: seq<byte>, b: seq<byte>)
    requires |a| == |b| == 4
    ensures (Word(a, 0) - Word(b, 0)) % 0x1_0000_0000 == 0 <==> a == b
  {
    WordRange(a);
    WordRange(b);
    SmallWrap(Word(a, 0), Word(b, 0));
    if Word(a, 0) == Word(b, 0) { SameWord(a, b); }
  }

  lemma WordRange(a: seq<byte>)
    requires |a| == 4
    ensures 0 <= Word(a, 0) < 0x1_0000_0000
  {
  }

  lemma SmallWrap(x: int, y: int)
    requires 0 <= x < 0x1_0000_0000 && 0 <= y < 0x1_0000_0000
    ensures (x - y) % 0x1_0000_0000 == 0 <==> x == y
  {
  }

  lemma SameWord(a: seq<byte>, b: seq<byte>)
    requires |a| == |b| == 4 && Word(a, 0) == Word(b, 0)
    ensures a == b
  {
    var a0, a1, a2, a3 := a[0] as int, a[1] as int, a[2] as int, a[3] as int;
    var b0, b1, b2, b3 := b[0] as int, b[1] as int, b[2] as int, b[3] as int;
    Digits(a0, a1, a2, a3);
    Digits(b0, b1, b2, b3);
    hide Part;
    assert a0 == b0 && a1 == b1 && a2 == b2 && a3 == b3;
  }

  /** One word step of memcmp_fast() decides as the four bytes do. */
  lemma WordCompares(a: seq<byte>, b: seq<byte>)
    requires |a| == |b| == 4
    ensures (Word(a, 0) - Word(b, 0)) % 0x1_0000_0000 == 0 <==> a == b
    ensures a != b ==> SameSign(WordSign(Word(a, 0), Word(b, 0)), Cmp(a, b))
  {
    var a0, a1, a2, a3 := a[0] as int, a[1] as int, a[2] as int, a[3] as int;
    var b0, b1, b2, b3 := b[0] as int, b[1] as int, b[2] as int, b[3] as int;
    Digits(a0, a1, a2, a3);
    Digits(b0, b1, b2, b3);
    FourBytes(a, b);
    assert a == b <==> a0 == b0 && a1 == b1 && a2 == b2 && a3 == b3;
    hide Cmp, Part;
    var x := Word(a, 0) - Word(b, 0);
    LowestPart(x, 1, a0 - b0, (a1 - b1) + 256 * (a2 - b2) + 65536 * (a3 - b3));
    if a0 == b0 {
      LowestPart(x, 256, a1 - b1, (a2 - b2) + 256 * (a3 - b3));
      if a1 == b1 {
        LowestPart(x, 65536, a2 - b2, a3 - b3);
      }
    }
    WordDiffers(a, b);
  }

  /** Behind equal beginnings the next m bytes decide if they differ. */
  lemma InParts(a: seq<byte>, i: nat, m: nat)
    requires i + m <= |a|
    ensures a == a[..i] + a[i..] && a[i..] == a[i..i + m] + a[i + m..] && a[..i + m] == a[..i] + a[i..i + m]
  {
  }

  lemma Decides(a: seq<byte>, b: seq<byte>, i: nat, m: nat)
    requires |a| == |b| && i + m <= |a| && a[..i] == b[..i]
    ensures a[i..i + m] != b[i..i + m] ==> Cmp(a, b) == Cmp(a[i..i + m], b[i..i + m])
    ensures a[i..i + m] == b[i..i + m] ==> a[..i + m] == b[..i + m]
  {
    hide Cmp;
    InParts(a, i, m);
    InParts(b, i, m);
    CmpParts(a[..i], b[..i], a[i..], b[i..]);
    CmpParts(a[i..i + m], b[i..i + m], a[i + m..], b[i + m..]);
  }

  lemma OneByte(a: seq<byte>, b: seq<byte>)
    requires |a| == |b| == 1
    ensures Cmp(a, b) == a[0] as int - b[0] as int
  {
  }

  /** memcmp_fast(): words first, then the bytes that are left. */
  method MemCmpFast(s: seq<byte>, t: seq<byte>, n: nat) returns (r: int)
    requires n <= |s| && n <= |t|
    ensures SameSign(r, Cmp(s[..n], t[..n]))
  {
    hide Cmp, WordSign;
    ghost var a, b := s[..n], t[..n];
    var i := 0;
    while n - i >= 4
      invariant 0 <= i <= n && a[..i] == b[..i]
    {
      Decides(a, b, i, 4);
      WordCompares(s[i..i + 4], t[i..i + 4]);
      assert a[i..i + 4] == s[i..i + 4] && b[i..i + 4] == t[i..i + 4];
      var k1, k2 := Word(s[i..i + 4], 0), Word(t[i..i + 4], 0);
      if (k1 - k2) % 0x1_0000_0000 != 0 {
        return WordSign(k1, k2);
      }
      i := i + 4;
    }
    while i < n
      invariant 0 <= i <= n && a[..i] == b[..i]
    {
      Decides(a, b, i, 1);
      OneByte(a[i..i + 1], b[i..i + 1]);
      if s[i] != t[i] {
        return s[i] as int - t[i] as int;
      }
      assert a[i..i + 1] == [s[i]] && b[i..i + 1] == [t[i]];
      i := i + 1;
    }
    assert a[..n] == a && b[..n] == b;
    CmpZero(a, b);
    return 0;
  }

  /** The first n bytes decide, or else the lengths if one of the strings ends there. */
  lemma CmpCommon(a: seq<byte>, b: seq<byte>, n: nat)
    requires n <= |a| && n <= |b|
    ensures a[..n] != b[..n] ==> Cmp(a, b) == Cmp(a[..n], b[..n])
    ensures a[..n] == b[..n] && (n == |a| || n == |b|) ==> Cmp(a, b) == |a| - |b|
    ensures Cmp(a[..n], b[..n]) == 0 <==> a[..n] == b[..n]
  {
    assert a == a[..n] + a[n..] && b == b[..n] + b[n..];
    CmpParts(a[..n], b[..n], a[n..], b[n..]);
    CmpZero(a[..n], b[..n]);
  }

  /** Comparing the next n bytes of k with those of r, which begin `piece`. */
  lemma StepCompares(k: seq<byte>, r: seq<byte>, n: nat, piece: seq<byte>)
    requires n <= |k| && n <= |r| && n <= |piece| && r[..n] == piece[..n]
    ensures k[..n] != piece[..n] ==> Cmp(k, r) == Cmp(k[..n], piece[..n])
    ensures k[..n] == piece[..n] ==> Cmp(k, r) == Cmp(k[n..], r[n..])
    ensures Cmp(k[..n], piece[..n]) == 0 <==> k[..n] == piece[..n]
  {
    assert k == k[..n] + k[n..] && r == r[..n] + r[n..];
    CmpParts(k[..n], r[..n], k[n..], r[n..]);
    CmpZero(k[..n], piece[..n]);
  }

  /** Where a stored key is the beginning of another, compare() goes by the difference of the lengths; that is right
      exactly if the keys are equal or the difference, cut to 32 bits, is positive. */
  lemma LengthsDecide(key: seq<byte>, stored: seq<byte>)
    requires stored <= key
    ensures SameSign(AsInt(|key| - |stored|), Cmp(key, stored)) <==>
            key == stored || 0 < (|key| - |stored|) % 0x1_0000_0000 < 0x8000_0000
  {
    CmpPrefix(key, stored);
    LowHalf(|key| - |stored|);
  }

  lemma {:induction false} CmpPrefix(key: seq<byte>, stored: seq<byte>)
    requires stored <= key
    ensures Cmp(key, stored) == |key| - |stored|
  {
    if stored != [] { CmpPrefix(key[1..], stored[1..]); }
  }

  lemma LowHalf(d: nat)
    ensures AsInt(d) == if d % 0x1_0000_0000 < 0x8000_0000 then d % 0x1_0000_0000 else d % 0x1_0000_0000 - 0x1_0000_0000
  {
    var q, r := d / 0x1_0000_0000, d % 0x1_0000_0000;
    assert d == 0x1_0000_0000 * q + r;
    if r < 0x8000_0000 {
      assert (d + 0x8000_0000) % 0x1_0000_0000 == r + 0x8000_0000;
    } else {
      assert d + 0x8000_0000 == 0x1_0000_0000 * (q + 1) + (r - 0x8000_0000);
    }
  }

  /** A key that is 2 GiB longer than a stored beginning of it compares as the smaller one. */
  lemma {:induction false} LongKeyBefore(key: seq<byte>, stored: seq<byte>)
    requires stored <= key && |key| == |stored| + KEYLIMIT
    ensures AsInt(|key| - |stored|) < 0 < Cmp(key, stored)
  {
    CmpPrefix(key, stored);
  }
}
